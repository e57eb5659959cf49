/** The schema-driven TL parser (tl/precompile.go): it undoes the writer, and the size preflight of vectors
    never turns away input that would have parsed. */
module TlParse {
  import opened Options
  import opened TlBytes
  import opened TlSchema
  import opened TlSize

  /** `NoFuel` says only that the nesting bound of the model was reached; it is never the answer of the parser. */
  datatype Parsed<+T> = Ok(value: T, rest: seq<Byte>) | Bad | NoFuel

  /** The vector limits: the minimum-size preflight, and the largest element count (0 for no limit). */
  datatype Limits = Limits(preflight: bool, maxElements: nat)

  function Depth(f: Field): nat {
    if f.typ.VectorT? then 1 + Depth(f.typ.elem) else 0
  }

  function MaxDepth(fs: seq<Field>): nat {
    if fs == [] then 0
    else
      var h, t := Depth(fs[0]), MaxDepth(fs[1..]);
      if h > t then h else t
  }

  function ParseFields(lim: Limits, sch: Schema, fs: seq<Field>, flags: nat, buf: seq<Byte>, fuel: nat): (r: Parsed<seq<Val>>)
    ensures r.Ok? ==> |r.rest| <= |buf|
    decreases fuel, 3 + 2 * MaxDepth(fs), |fs|
  {
    if fs == [] then Ok([], buf)
    else match ParseOne(lim, sch, fs[0], flags, buf, fuel)
      case Bad => Bad
      case NoFuel => NoFuel
      case Ok(v, rest) =>
        match ParseFields(lim, sch, fs[1..], if Skipped(fs[0], flags) then flags else NextFlags(fs[0], v, flags), rest, fuel)
        case Bad => Bad
        case NoFuel => NoFuel
        case Ok(vs, rest') => Ok([v] + vs, rest')
  }

  /** A field whose flag is off is left at its zero value and takes no bytes. */
  function ParseOne(lim: Limits, sch: Schema, f: Field, flags: nat, buf: seq<Byte>, fuel: nat): (r: Parsed<Val>)
    ensures r.Ok? ==> |r.rest| <= |buf|
    decreases fuel, 2 + 2 * Depth(f), 1
  {
    if Skipped(f, flags) then Ok(Absent, buf) else ParseField(lim, sch, f, buf, fuel)
  }

  function Fixed(size: nat, buf: seq<Byte>): Parsed<Val> {
    if |buf| < size then Bad else Ok(Bts(buf[..size]), buf[size..])
  }

  function ParseField(lim: Limits, sch: Schema, f: Field, buf: seq<Byte>, fuel: nat): (r: Parsed<Val>)
    ensures r.Ok? ==> |r.rest| <= |buf|
    decreases fuel, 2 + 2 * Depth(f), 0
  {
    match f.typ
    case FlagsT => if |buf| < 4 then Bad else Ok(Num(FromLe(buf[..4])), buf[4..])
    case BytesT => ParseBytes(buf)
    case FixedT(size) => Fixed(size, buf)
    case Ip4T => if |buf| < 4 then Bad else Ok(Bts([buf[3], buf[2], buf[1], buf[0]]), buf[4..])
    case Ip6T => Fixed(16, buf)
    case NumT(wire, width) => if |buf| < wire then Bad else Ok(Num(FromLe(buf[..wire]) % Pow256(width)), buf[wire..])
    case BoolT => if |buf| < 4 then Bad else Ok(Boolean(FromLe(buf[..4]) == BOOL_TRUE), buf[4..])
    case VectorT(elem) =>
      if |buf| < 4 then Bad
      else
        var n := FromLe(buf[..4]);
        if lim.maxElements > 0 && n > lim.maxElements then Bad
        else if lim.preflight && MinPayload(MinField(sch, elem, {}), n) > |buf| - 4 then Bad
        else AsVec(ParseElems(lim, sch, elem, n, buf[4..], fuel))
    case StructT(name, boxed, asBytes) =>
      if !asBytes then Held(ParseStruct(lim, sch, name, boxed, buf, fuel))
      else
        var wrapped := FromBytes(buf);
        if wrapped.None? then Bad
        else After(Held(ParseStruct(lim, sch, name, boxed, wrapped.value.0, fuel)), wrapped.value.1)
    case IfaceT(allowed, asBytes) =>
      if !asBytes then ParseItem(lim, sch, allowed, buf, fuel)
      else
        var wrapped := FromBytes(buf);
        if wrapped.None? then Bad
        else After(OneOrList(ParseItems(lim, sch, allowed, wrapped.value.0, fuel)), wrapped.value.1)
  }

  function ParseBytes(buf: seq<Byte>): Parsed<Val> {
    var r := FromBytes(buf);
    if r.None? then Bad else Ok(Bts(r.value.0), r.value.1)
  }

  function AsVec(p: Parsed<seq<Val>>): Parsed<Val> {
    match p
    case Ok(vs, rest) => Ok(Vec(vs), rest)
    case Bad => Bad
    case NoFuel => NoFuel
  }

  function Held(p: Parsed<seq<Val>>): Parsed<Val> {
    match p
    case Ok(vs, rest) => Ok(Rec(vs), rest)
    case Bad => Bad
    case NoFuel => NoFuel
  }

  /** What is left inside a byte-wrapped struct is ignored; parsing goes on after the wrapper. */
  function After(p: Parsed<Val>, rest: seq<Byte>): Parsed<Val> {
    if p.Ok? then Ok(p.value, rest) else p
  }

  /** No member is an error, one member stands for itself, more become a list. */
  function OneOrList(p: Parsed<seq<Val>>): Parsed<Val> {
    match p
    case Ok(vs, rest) => if vs == [] then Bad else Ok(if |vs| == 1 then vs[0] else Lst(vs), rest)
    case Bad => Bad
    case NoFuel => NoFuel
  }

  /** The least payload of `n` elements, capped at the largest 64-bit number. */
  function MinPayload(elem: nat, n: nat): nat {
    if elem == 0 then 0 else if n > MAX64 / elem then MAX64 else elem * n
  }

  function ParseElems(lim: Limits, sch: Schema, elem: Field, n: nat, buf: seq<Byte>, fuel: nat): (r: Parsed<seq<Val>>)
    ensures r.Ok? ==> |r.rest| <= |buf|
    decreases fuel, 3 + 2 * Depth(elem), n
  {
    if n == 0 then Ok([], buf)
    else match ParseOne(lim, sch, elem, 0, buf, fuel)
      case Bad => Bad
      case NoFuel => NoFuel
      case Ok(v, rest) =>
        match ParseElems(lim, sch, elem, n - 1, rest, fuel)
        case Bad => Bad
        case NoFuel => NoFuel
        case Ok(vs, rest') => Ok([v] + vs, rest')
  }

  function ParseStruct(lim: Limits, sch: Schema, name: Name, boxed: bool, buf: seq<Byte>, fuel: nat): (r: Parsed<seq<Val>>)
    ensures r.Ok? ==> |r.rest| <= |buf|
    decreases fuel, 0, 0
  {
    if name !in sch.structs then Bad
    else if boxed && (|buf| < 4 || FromLe(buf[..4]) != sch.structs[name].id) then Bad
    else if fuel == 0 then NoFuel
    else ParseFields(lim, sch, sch.structs[name].fields, 0, if boxed then buf[4..] else buf, fuel - 1)
  }

  /** A boxed value of whichever registered type its constructor id names. */
  function ParseItem(lim: Limits, sch: Schema, allowed: seq<Name>, buf: seq<Byte>, fuel: nat): (r: Parsed<Val>)
    ensures r.Ok? ==> |r.rest| <= |buf| - 4
    decreases fuel, 0, 1
  {
    if |buf| < 4 || FromLe(buf[..4]) !in sch.byId then Bad
    else
      var name := sch.byId[FromLe(buf[..4])];
      if !IsAllowed(allowed, name) then Bad
      else match ParseStruct(lim, sch, name, false, buf[4..], fuel)
        case Ok(vs, rest) => Ok(Dyn(name, vs), rest)
        case Bad => Bad
        case NoFuel => NoFuel
  }

  function ParseItems(lim: Limits, sch: Schema, allowed: seq<Name>, source: seq<Byte>, fuel: nat): Parsed<seq<Val>>
    decreases fuel, 1, |source|
  {
    if source == [] then Ok([], [])
    else match ParseItem(lim, sch, allowed, source, fuel)
      case Bad => Bad
      case NoFuel => NoFuel
      case Ok(v, rest) =>
        match ParseItems(lim, sch, allowed, rest, fuel)
        case Bad => Bad
        case NoFuel => NoFuel
        case Ok(vs, rest') => Ok([v] + vs, rest')
  }
}
