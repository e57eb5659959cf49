/** Compiled TL schemas, the values they describe and the bytes those values are written to
    (tl/precompile.go). */
module TlSchema {
  import opened Options
  import opened TlBytes

  type Name = string

  /** The wire kinds of a field. Byte strings and text share a kind, as do all numbers: `NumT(wire, width)` is a
      number held in `width` bytes and written in `wire` bytes. `StructT` holds a struct of one known type in
      place or behind a pointer, `IfaceT` any registered one. */
  datatype FieldType =
    | FlagsT
    | BytesT
    | FixedT(size: nat)
    | Ip4T
    | Ip6T
    | NumT(wire: nat, width: nat)
    | BoolT
    | VectorT(elem: Field)
    | StructT(name: Name, boxed: bool, asBytes: bool)
    | IfaceT(allowed: seq<Name>, asBytes: bool)

  /** A field, present on the wire always or only when its bit of the flags word is set. */
  datatype Field = Field(typ: FieldType, flag: Option<nat>)

  datatype Struct = Struct(id: nat, fields: seq<Field>)

  /** The registry: structs by name, and names by constructor id. */
  datatype Schema = Schema(structs: map<Name, Struct>, byId: map<nat, Name>)

  /** Every registered struct is the one its own constructor id leads to. */
  ghost predicate Consistent(sch: Schema) {
    forall n :: n in sch.structs ==>
      && sch.structs[n].id < TWO32
      && sch.structs[n].id in sch.byId
      && sch.byId[sch.structs[n].id] == n
  }

  /** Field values. `Absent` is the zero value a field keeps when its flag is off; `Dyn` is an interface value with
      the struct it holds, `Lst` an interface holding a list of such values. */
  datatype Val =
    | Absent
    | Num(n: nat)
    | Bts(b: seq<Byte>)
    | Boolean(on: bool)
    | Vec(elems: seq<Val>)
    | Rec(fields: seq<Val>)
    | Dyn(name: Name, fields: seq<Val>)
    | Lst(items: seq<Val>)

  const BOOL_TRUE: nat := 0x9972_75B5
  const BOOL_FALSE: nat := 0xBC79_9737

  predicate TestFlag(flags: nat, k: nat) {
    if k == 0 then flags % 2 == 1 else TestFlag(flags / 2, k - 1)
  }

  predicate Skipped(f: Field, flags: nat) {
    f.flag.Some? && !TestFlag(flags, f.flag.value)
  }

  predicate IsAllowed(allowed: seq<Name>, name: Name) {
    allowed == [] || name in allowed
  }

  function Cat(a: Option<seq<Byte>>, b: Option<seq<Byte>>): Option<seq<Byte>> {
    if a.Some? && b.Some? then Some(a.value + b.value) else None
  }

  function Wrap(asBytes: bool, body: Option<seq<Byte>>): Option<seq<Byte>> {
    if body.None? || !asBytes then body else Encode(body.value)
  }

  const V4_IN_V6: seq<Byte> := Zeros(10) + [0xFF, 0xFF]

  /** Address bytes in reverse order; the long form of a short address is shortened first. */
  function EncIp4(b: seq<Byte>): Option<seq<Byte>> {
    var v := if |b| == 16 && b[..12] == V4_IN_V6 then b[12..] else b;
    if |v| == 4 then Some([v[3], v[2], v[1], v[0]])
    else if |v| == 0 then Some(Zeros(4))
    else None
  }

  function EncIp6(b: seq<Byte>): Option<seq<Byte>> {
    var v := if |b| == 4 then V4_IN_V6 + b else b;
    if |v| == 16 then Some(v) else if |v| == 0 then Some(Zeros(16)) else None
  }

  function NextFlags(f: Field, v: Val, flags: nat): nat {
    if f.typ.FlagsT? && v.Num? then v.n else flags
  }

  /** The bytes of a struct body: each field in order, gated by the flags word read so far. */
  function EncFields(sch: Schema, fs: seq<Field>, vs: seq<Val>, flags: nat): Option<seq<Byte>>
    decreases vs, 0
  {
    if |fs| != |vs| then None
    else if fs == [] then Some([])
    else if Skipped(fs[0], flags) then EncFields(sch, fs[1..], vs[1..], flags)
    else Cat(EncField(sch, fs[0].typ, vs[0]),
             EncFields(sch, fs[1..], vs[1..], NextFlags(fs[0], vs[0], flags)))
  }

  function EncField(sch: Schema, t: FieldType, v: Val): Option<seq<Byte>>
    decreases v, 1
  {
    match t
    case FlagsT => if v.Num? && v.n < TWO32 then Some(Le(v.n, 4)) else None
    case BytesT => if v.Bts? then Encode(v.b) else None
    case FixedT(size) =>
      if v.Bts? && |v.b| == size then Some(v.b)
      else if v.Bts? && |v.b| == 0 then Some(Zeros(size))
      else None
    case Ip4T => if v.Bts? then EncIp4(v.b) else None
    case Ip6T => if v.Bts? then EncIp6(v.b) else None
    case NumT(wire, width) => if v.Num? && v.n < Pow256(width) then Some(Le(v.n, wire)) else None
    case BoolT => if v.Boolean? then Some(Le(if v.on then BOOL_TRUE else BOOL_FALSE, 4)) else None
    case VectorT(elem) => if v.Vec? then Cat(Some(Le(|v.elems|, 4)), EncElems(sch, elem, v.elems)) else None
    case StructT(name, boxed, asBytes) =>
      if v.Rec? && name in sch.structs then Wrap(asBytes, EncStruct(sch, name, v.fields, boxed)) else None
    case IfaceT(allowed, asBytes) =>
      if v.Dyn? then Wrap(asBytes, EncItem(sch, allowed, v))
      else if v.Lst? then Wrap(asBytes, EncItems(sch, allowed, v.items))
      else None
  }

  /** Vector elements, each a struct of the single element field. */
  function EncElems(sch: Schema, elem: Field, vs: seq<Val>): Option<seq<Byte>>
    decreases vs, 0
  {
    if vs == [] then Some([])
    else Cat(if Skipped(elem, 0) then Some([]) else EncField(sch, elem.typ, vs[0]), EncElems(sch, elem, vs[1..]))
  }

  function EncStruct(sch: Schema, name: Name, vs: seq<Val>, boxed: bool): Option<seq<Byte>>
    requires name in sch.structs
    decreases vs, 1
  {
    Cat(Some(if boxed then Le(sch.structs[name].id, 4) else []), EncFields(sch, sch.structs[name].fields, vs, 0))
  }

  /** An interface value: always boxed, and only of a type the field allows. */
  function EncItem(sch: Schema, allowed: seq<Name>, v: Val): Option<seq<Byte>>
    decreases v, 0
  {
    if v.Dyn? && v.name in sch.structs && IsAllowed(allowed, v.name) then EncStruct(sch, v.name, v.fields, true) else None
  }

  function EncItems(sch: Schema, allowed: seq<Name>, vs: seq<Val>): Option<seq<Byte>>
    decreases vs, 0
  {
    if vs == [] then Some([]) else Cat(EncItem(sch, allowed, vs[0]), EncItems(sch, allowed, vs[1..]))
  }

  /** How many structs nest inside each other in a value. */
  function Height(v: Val): nat
    decreases v, 0
  {
    match v
    case Vec(es) => HeightSeq(es)
    case Rec(fs) => 1 + HeightSeq(fs)
    case Dyn(_, fs) => 1 + HeightSeq(fs)
    case Lst(items) => HeightSeq(items)
    case _ => 0
  }

  function HeightSeq(vs: seq<Val>): nat
    decreases vs, 0
  {
    if vs == [] then 0
    else
      var h, t := Height(vs[0]), HeightSeq(vs[1..]);
      if h > t then h else t
  }

  /** Values that parsing can give back: flagged-off fields hold their zero value, numbers fit both widths, fixed
      byte fields are full, and a list in an interface is byte-wrapped and has at least two members. */
  ghost predicate NormalFields(sch: Schema, max: nat, fs: seq<Field>, vs: seq<Val>, flags: nat)
    decreases vs, 0
  {
    && |fs| == |vs|
    && (fs != [] ==>
          && NormalOne(sch, max, fs[0], vs[0], flags)
          && NormalFields(sch, max, fs[1..], vs[1..], if Skipped(fs[0], flags) then flags else NextFlags(fs[0], vs[0], flags)))
  }

  ghost predicate NormalOne(sch: Schema, max: nat, f: Field, v: Val, flags: nat)
    decreases v, 2
  {
    if Skipped(f, flags) then v == Absent else NormalField(sch, max, f.typ, v)
  }

  ghost predicate NormalField(sch: Schema, max: nat, t: FieldType, v: Val)
    decreases v, 1
  {
    match t
    case FlagsT => v.Num?
    case BytesT => v.Bts?
    case FixedT(size) => v.Bts? && |v.b| == size
    case Ip4T => v.Bts? && |v.b| == 4
    case Ip6T => v.Bts? && |v.b| == 16
    case NumT(wire, width) => v.Num? && v.n < Pow256(wire)
    case BoolT => v.Boolean?
    case VectorT(elem) =>
      && v.Vec? && |v.elems| < TWO32 && (max > 0 ==> |v.elems| <= max)
      && forall e :: e in v.elems ==> NormalOne(sch, max, elem, e, 0)
    case StructT(name, _, _) => v.Rec? && name in sch.structs && NormalFields(sch, max, sch.structs[name].fields, v.fields, 0)
    case IfaceT(_, asBytes) =>
      if v.Lst? then asBytes && |v.items| >= 2 && (forall e :: e in v.items ==> NormalItem(sch, max, e))
      else NormalItem(sch, max, v)
  }

  ghost predicate NormalItem(sch: Schema, max: nat, v: Val)
    decreases v, 0
  {
    v.Dyn? && v.name in sch.structs && NormalFields(sch, max, sch.structs[v.name].fields, v.fields, 0)
  }
}
