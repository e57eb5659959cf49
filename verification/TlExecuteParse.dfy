/** The parser as it runs (tl/precompile.go, `executeParse`): loops over fields, vector elements and packed values that
    consume the buffer. The nesting bound does not change any answer once it is large enough. */
module TlExecuteParse {
  import opened Options
  import opened TlBytes
  import opened TlSchema
  import opened TlSize
  import opened TlParse
  import opened TlLeaves

  function Prepend(vs: seq<Val>, p: Parsed<seq<Val>>): Parsed<seq<Val>> {
    if p.Ok? then Ok(vs + p.value, p.rest) else p
  }

  lemma PrependOne(vs: seq<Val>, v: Val, p: Parsed<seq<Val>>)
    ensures Prepend(vs + [v], p) == Prepend(vs, Prepend([v], p))
    ensures Prepend([], p) == p
  {
    if p.Ok? {
      assert (vs + [v]) + p.value == vs + ([v] + p.value);
      assert [] + p.value == p.value;
    }
  }

  method ExecuteParse(lim: Limits, sch: Schema, fs: seq<Field>, data: seq<Byte>, fuel: nat) returns (r: Parsed<seq<Val>>)
    ensures r == ParseFields(lim, sch, fs, 0, data, fuel)
    decreases fuel, 3 + 2 * MaxDepth(fs), |fs|
  {
    var vs, buf, flags := [], data, 0;
    PrependOne([], Absent, ParseFields(lim, sch, fs, 0, data, fuel));
    for i := 0 to |fs|
      invariant ParseFields(lim, sch, fs, 0, data, fuel) == Prepend(vs, ParseFields(lim, sch, fs[i..], flags, buf, fuel))
    {
      assert fs[i..][1..] == fs[i + 1..];
      DepthOfMember(fs, i);
      var v := Absent;
      if !Skipped(fs[i], flags) {
        var one := ExecuteParseField(lim, sch, fs[i], buf, fuel);
        if !one.Ok? {
          return if one.Bad? then Bad else NoFuel;
        }
        v, buf, flags := one.value, one.rest, NextFlags(fs[i], one.value, flags);
      }
      PrependOne(vs, v, ParseFields(lim, sch, fs[i + 1..], flags, buf, fuel));
      vs := vs + [v];
    }
    assert vs + [] == vs;
    return Ok(vs, buf);
  }

  lemma DepthOfMember(fs: seq<Field>, i: nat)
    requires i < |fs|
    ensures Depth(fs[i]) <= MaxDepth(fs)
  {
    if i > 0 {
      DepthOfMember(fs[1..], i - 1);
    }
  }

  method ExecuteParseField(lim: Limits, sch: Schema, f: Field, buf: seq<Byte>, fuel: nat) returns (r: Parsed<Val>)
    ensures r == ParseField(lim, sch, f, buf, fuel)
    decreases fuel, 2 + 2 * Depth(f), 0
  {
    match f.typ
    case VectorT(elem) =>
      if |buf| < 4 {
        return Bad;
      }
      var n := FromLe(buf[..4]);
      if lim.maxElements > 0 && n > lim.maxElements {
        return Bad;
      }
      if lim.preflight {
        var least := CalculateMinimumFieldWireSize(sch, elem, {});
        if MinPayload(least, n) > |buf| - 4 {
          return Bad;
        }
      }
      var vs, rest := [], buf[4..];
      PrependOne([], Absent, ParseElems(lim, sch, elem, n, rest, fuel));
      for x := 0 to n
        invariant ParseElems(lim, sch, elem, n, buf[4..], fuel) == Prepend(vs, ParseElems(lim, sch, elem, n - x, rest, fuel))
      {
        var v := Absent;
        if !Skipped(elem, 0) {
          var one := ExecuteParseField(lim, sch, elem, rest, fuel);
          if !one.Ok? {
            return one;
          }
          v, rest := one.value, one.rest;
        }
        PrependOne(vs, v, ParseElems(lim, sch, elem, n - x - 1, rest, fuel));
        vs := vs + [v];
      }
      assert vs + [] == vs;
      return Ok(Vec(vs), rest);
    case StructT(name, boxed, asBytes) =>
      if !asBytes {
        var held := ExecuteParseStruct(lim, sch, name, boxed, buf, fuel);
        return Held(held);
      }
      var wrapped := FromBytes(buf);
      if wrapped.None? {
        return Bad;
      }
      var held := ExecuteParseStruct(lim, sch, name, boxed, wrapped.value.0, fuel);
      return After(Held(held), wrapped.value.1);
    case IfaceT(allowed, asBytes) =>
      if !asBytes {
        r := ExecuteParseBoxed(lim, sch, allowed, buf, fuel);
        return;
      }
      var wrapped := FromBytes(buf);
      if wrapped.None? {
        return Bad;
      }
      var items := ExecuteParseList(lim, sch, allowed, wrapped.value.0, fuel);
      return After(OneOrList(items), wrapped.value.1);
    case _ =>
      r := ReadLeaf(lim, sch, f, buf, fuel);
  }

  method ExecuteParseStruct(lim: Limits, sch: Schema, name: Name, boxed: bool, buf: seq<Byte>, fuel: nat) returns (r: Parsed<seq<Val>>)
    ensures r == ParseStruct(lim, sch, name, boxed, buf, fuel)
    decreases fuel, 0, 0
  {
    if name !in sch.structs {
      return Bad;
    }
    var body := buf;
    if boxed {
      if |buf| < 4 || FromLe(buf[..4]) != sch.structs[name].id {
        return Bad;
      }
      body := buf[4..];
    }
    if fuel == 0 {
      return NoFuel;
    }
    r := ExecuteParse(lim, sch, sch.structs[name].fields, body, fuel - 1);
  }

  method ExecuteParseBoxed(lim: Limits, sch: Schema, allowed: seq<Name>, buf: seq<Byte>, fuel: nat) returns (r: Parsed<Val>)
    ensures r == ParseItem(lim, sch, allowed, buf, fuel)
    decreases fuel, 0, 1
  {
    if |buf| < 4 || FromLe(buf[..4]) !in sch.byId {
      return Bad;
    }
    var name := sch.byId[FromLe(buf[..4])];
    if !IsAllowed(allowed, name) {
      return Bad;
    }
    var body := ExecuteParseStruct(lim, sch, name, false, buf[4..], fuel);
    match body
    case Ok(vs, rest) => return Ok(Dyn(name, vs), rest);
    case Bad => return Bad;
    case NoFuel => return NoFuel;
  }

  method ExecuteParseList(lim: Limits, sch: Schema, allowed: seq<Name>, data: seq<Byte>, fuel: nat) returns (r: Parsed<seq<Val>>)
    ensures r == ParseItems(lim, sch, allowed, data, fuel)
    decreases fuel, 1, 0
  {
    var vs, source := [], data;
    PrependOne([], Absent, ParseItems(lim, sch, allowed, data, fuel));
    while |source| > 0
      invariant ParseItems(lim, sch, allowed, data, fuel) == Prepend(vs, ParseItems(lim, sch, allowed, source, fuel))
      decreases |source|
    {
      var one := ExecuteParseBoxed(lim, sch, allowed, source, fuel);
      if !one.Ok? {
        return if one.Bad? then Bad else NoFuel;
      }
      PrependOne(vs, one.value, ParseItems(lim, sch, allowed, one.rest, fuel));
      vs, source := vs + [one.value], one.rest;
    }
    assert vs + [] == vs;
    return Ok(vs, []);
  }

  /** `q` repeats the answer of `p`, if `p` had one. */
  predicate Settled<T(==)>(p: Parsed<T>, q: Parsed<T>) {
    p.NoFuel? || q == p
  }

  lemma {:induction false} FuelFields(lim: Limits, sch: Schema, fs: seq<Field>, flags: nat, buf: seq<Byte>, fuel: nat, more: nat)
    requires fuel <= more
    ensures Settled(ParseFields(lim, sch, fs, flags, buf, fuel), ParseFields(lim, sch, fs, flags, buf, more))
    decreases fuel, 3 + 2 * MaxDepth(fs), |fs|
  {
    if fs != [] {
      FuelOne(lim, sch, fs[0], flags, buf, fuel, more);
      var one := ParseOne(lim, sch, fs[0], flags, buf, fuel);
      if one.Ok? {
        var flags' := if Skipped(fs[0], flags) then flags else NextFlags(fs[0], one.value, flags);
        FuelFields(lim, sch, fs[1..], flags', one.rest, fuel, more);
      }
    }
  }

  lemma {:induction false} FuelOne(lim: Limits, sch: Schema, f: Field, flags: nat, buf: seq<Byte>, fuel: nat, more: nat)
    requires fuel <= more
    ensures Settled(ParseOne(lim, sch, f, flags, buf, fuel), ParseOne(lim, sch, f, flags, buf, more))
    decreases fuel, 2 + 2 * Depth(f), 1
  {
    if Skipped(f, flags) {
    } else if f.typ.VectorT? {
      if |buf| >= 4 {
        FuelElems(lim, sch, f.typ.elem, FromLe(buf[..4]), buf[4..], fuel, more);
      }
    } else if f.typ.StructT? {
      if !f.typ.asBytes {
        FuelStruct(lim, sch, f.typ.name, f.typ.boxed, buf, fuel, more);
      } else if FromBytes(buf).Some? {
        FuelStruct(lim, sch, f.typ.name, f.typ.boxed, FromBytes(buf).value.0, fuel, more);
      }
    } else if f.typ.IfaceT? {
      if !f.typ.asBytes {
        FuelItem(lim, sch, f.typ.allowed, buf, fuel, more);
      } else if FromBytes(buf).Some? {
        FuelItems(lim, sch, f.typ.allowed, FromBytes(buf).value.0, fuel, more);
      }
    }
  }

  lemma {:induction false} FuelElems(lim: Limits, sch: Schema, elem: Field, n: nat, buf: seq<Byte>, fuel: nat, more: nat)
    requires fuel <= more
    ensures Settled(ParseElems(lim, sch, elem, n, buf, fuel), ParseElems(lim, sch, elem, n, buf, more))
    decreases fuel, 3 + 2 * Depth(elem), n
  {
    if n > 0 {
      FuelOne(lim, sch, elem, 0, buf, fuel, more);
      var one := ParseOne(lim, sch, elem, 0, buf, fuel);
      if one.Ok? {
        FuelElems(lim, sch, elem, n - 1, one.rest, fuel, more);
      }
    }
  }

  /** More nesting allowed never changes an answer already given. */
  lemma {:induction false} FuelStruct(lim: Limits, sch: Schema, name: Name, boxed: bool, buf: seq<Byte>, fuel: nat, more: nat)
    requires fuel <= more
    ensures Settled(ParseStruct(lim, sch, name, boxed, buf, fuel), ParseStruct(lim, sch, name, boxed, buf, more))
    decreases fuel, 0, 0
  {
    if name in sch.structs && fuel > 0 && (boxed ==> |buf| >= 4) {
      FuelFields(lim, sch, sch.structs[name].fields, 0, if boxed then buf[4..] else buf, fuel - 1, more - 1);
    }
  }

  lemma {:induction false} FuelItem(lim: Limits, sch: Schema, allowed: seq<Name>, buf: seq<Byte>, fuel: nat, more: nat)
    requires fuel <= more
    ensures Settled(ParseItem(lim, sch, allowed, buf, fuel), ParseItem(lim, sch, allowed, buf, more))
    decreases fuel, 0, 1
  {
    if |buf| >= 4 && FromLe(buf[..4]) in sch.byId {
      FuelStruct(lim, sch, sch.byId[FromLe(buf[..4])], false, buf[4..], fuel, more);
    }
  }

  lemma {:induction false} FuelItems(lim: Limits, sch: Schema, allowed: seq<Name>, source: seq<Byte>, fuel: nat, more: nat)
    requires fuel <= more
    ensures Settled(ParseItems(lim, sch, allowed, source, fuel), ParseItems(lim, sch, allowed, source, more))
    decreases fuel, 1, |source|
  {
    if source != [] {
      FuelItem(lim, sch, allowed, source, fuel, more);
      var one := ParseItem(lim, sch, allowed, source, fuel);
      if one.Ok? {
        FuelItems(lim, sch, allowed, one.rest, fuel, more);
      }
    }
  }
}
