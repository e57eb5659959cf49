/** The size analysis and the parser agree: no successful parse is shorter than the least wire size, so the vector
    preflight only turns away input that cannot be parsed, and the round trip holds with it. */
module TlPreflight {
  import opened Options
  import opened TlBytes
  import opened TlSchema
  import opened TlSize
  import opened TlParse
  import TlRoundTrip

  lemma {:induction false} MinOfFields(lim: Limits, sch: Schema, fs: seq<Field>, flags: nat, buf: seq<Byte>, fuel: nat, visiting: set<Name>)
    requires ParseFields(lim, sch, fs, flags, buf, fuel).Ok?
    ensures |buf| - |ParseFields(lim, sch, fs, flags, buf, fuel).rest| >= MinFields(sch, fs, visiting)
    decreases fuel, 2, |fs|
  {
    if fs != [] {
      var one := ParseOne(lim, sch, fs[0], flags, buf, fuel);
      if !Skipped(fs[0], flags) {
        MinOfField(lim, sch, fs[0], buf, fuel, visiting);
      }
      var flags' := if Skipped(fs[0], flags) then flags else NextFlags(fs[0], one.value, flags);
      MinOfFields(lim, sch, fs[1..], flags', one.rest, fuel, visiting);
    }
  }

  /** Every field that parses takes at least its least wire size, however the recursion of the analysis is cut. */
  lemma {:induction false} MinOfField(lim: Limits, sch: Schema, f: Field, buf: seq<Byte>, fuel: nat, visiting: set<Name>)
    requires ParseField(lim, sch, f, buf, fuel).Ok?
    ensures |buf| - |ParseField(lim, sch, f, buf, fuel).rest| >= MinField(sch, f, visiting)
    decreases fuel, 1, 0
  {
    if f.typ.StructT? && !f.typ.asBytes {
      MinOfStruct(lim, sch, f.typ.name, f.typ.boxed, buf, fuel, visiting);
    } else if f.typ.IfaceT? && !f.typ.asBytes {
      var name := sch.byId[FromLe(buf[..4])];
      MinOfStruct(lim, sch, name, false, buf[4..], fuel, visiting);
      if f.typ.allowed != [] {
        MinAllowedIsLeast(sch, f.typ.allowed, visiting, name);
      }
    }
  }

  lemma {:induction false} MinOfStruct(lim: Limits, sch: Schema, name: Name, boxed: bool, buf: seq<Byte>, fuel: nat, visiting: set<Name>)
    requires ParseStruct(lim, sch, name, boxed, buf, fuel).Ok?
    ensures |buf| - |ParseStruct(lim, sch, name, boxed, buf, fuel).rest| >= MinStruct(sch, name, visiting) + if boxed then 4 else 0
    decreases fuel, 0, 0
  {
    MinOfFields(lim, sch, sch.structs[name].fields, 0, if boxed then buf[4..] else buf, fuel - 1, visiting + {name});
  }

  lemma {:induction false} MinOfElems(lim: Limits, sch: Schema, elem: Field, n: nat, buf: seq<Byte>, fuel: nat)
    requires ParseElems(lim, sch, elem, n, buf, fuel).Ok?
    ensures |buf| - |ParseElems(lim, sch, elem, n, buf, fuel).rest| >= n * MinField(sch, elem, {})
  {
    if n > 0 {
      var one := ParseOne(lim, sch, elem, 0, buf, fuel);
      if !Skipped(elem, 0) {
        MinOfField(lim, sch, elem, buf, fuel, {});
      }
      MinOfElems(lim, sch, elem, n - 1, one.rest, fuel);
      OneMore(n, MinField(sch, elem, {}));
    }
  }

  lemma OneMore(n: nat, m: nat)
    requires n > 0
    ensures n * m == m + (n - 1) * m
  {
  }

  /** The preflight passes whenever the elements are really there. */
  lemma PreflightPasses(lim: Limits, sch: Schema, elem: Field, n: nat, buf: seq<Byte>, fuel: nat)
    requires ParseElems(lim, sch, elem, n, buf, fuel).Ok?
    ensures MinPayload(MinField(sch, elem, {}), n) <= |buf|
  {
    var m := MinField(sch, elem, {});
    MinOfElems(lim, sch, elem, n, buf, fuel);
    if m > 0 {
      Capped(m, n);
    }
  }

  lemma Capped(m: nat, n: nat)
    requires m > 0
    ensures MinPayload(m, n) <= n * m
  {
    if n > MAX64 / m {
      assert n >= MAX64 / m + 1;
      assert n * m >= (MAX64 / m + 1) * m;
      assert (MAX64 / m + 1) * m == MAX64 / m * m + m;
      assert MAX64 == MAX64 / m * m + MAX64 % m;
    }
  }

  /** `q` answers as `p` does, except that it may give up earlier on what `p` cannot finish. */
  predicate Agrees<T(==)>(p: Parsed<T>, q: Parsed<T>) {
    && (p.Ok? ==> q == p)
    && (p.Bad? ==> q.Bad?)
    && (p.NoFuel? ==> !q.Ok?)
  }

  lemma {:induction false} SameFields(max: nat, sch: Schema, fs: seq<Field>, flags: nat, buf: seq<Byte>, fuel: nat)
    ensures Agrees(ParseFields(Limits(false, max), sch, fs, flags, buf, fuel), ParseFields(Limits(true, max), sch, fs, flags, buf, fuel))
    decreases fuel, 3 + 2 * MaxDepth(fs), |fs|
  {
    if fs != [] {
      SameOne(max, sch, fs[0], flags, buf, fuel);
      var one := ParseOne(Limits(false, max), sch, fs[0], flags, buf, fuel);
      if one.Ok? {
        var flags' := if Skipped(fs[0], flags) then flags else NextFlags(fs[0], one.value, flags);
        SameFields(max, sch, fs[1..], flags', one.rest, fuel);
      }
    }
  }

  lemma {:induction false} SameOne(max: nat, sch: Schema, f: Field, flags: nat, buf: seq<Byte>, fuel: nat)
    ensures Agrees(ParseOne(Limits(false, max), sch, f, flags, buf, fuel), ParseOne(Limits(true, max), sch, f, flags, buf, fuel))
    decreases fuel, 2 + 2 * Depth(f), 1
  {
    if !Skipped(f, flags) {
      SameField(max, sch, f, buf, fuel);
    }
  }

  lemma {:induction false} SameField(max: nat, sch: Schema, f: Field, buf: seq<Byte>, fuel: nat)
    ensures Agrees(ParseField(Limits(false, max), sch, f, buf, fuel), ParseField(Limits(true, max), sch, f, buf, fuel))
    decreases fuel, 2 + 2 * Depth(f), 0
  {
    if f.typ.VectorT? {
      SameVector(max, sch, f, buf, fuel);
    } else if f.typ.StructT? {
      if !f.typ.asBytes {
        SameStruct(max, sch, f.typ.name, f.typ.boxed, buf, fuel);
      } else if FromBytes(buf).Some? {
        SameStruct(max, sch, f.typ.name, f.typ.boxed, FromBytes(buf).value.0, fuel);
      }
    } else if f.typ.IfaceT? {
      if !f.typ.asBytes {
        SameItem(max, sch, f.typ.allowed, buf, fuel);
      } else if FromBytes(buf).Some? {
        SameItems(max, sch, f.typ.allowed, FromBytes(buf).value.0, fuel);
      }
    }
  }

  lemma {:induction false} SameVector(max: nat, sch: Schema, f: Field, buf: seq<Byte>, fuel: nat)
    requires f.typ.VectorT?
    ensures Agrees(ParseField(Limits(false, max), sch, f, buf, fuel), ParseField(Limits(true, max), sch, f, buf, fuel))
    decreases fuel, 1 + 2 * Depth(f), 1
  {
    if |buf| >= 4 {
      var n := FromLe(buf[..4]);
      SameElems(max, sch, f.typ.elem, n, buf[4..], fuel);
      if ParseElems(Limits(false, max), sch, f.typ.elem, n, buf[4..], fuel).Ok? {
        PreflightPasses(Limits(false, max), sch, f.typ.elem, n, buf[4..], fuel);
      }
    }
  }

  lemma {:induction false} SameElems(max: nat, sch: Schema, elem: Field, n: nat, buf: seq<Byte>, fuel: nat)
    ensures Agrees(ParseElems(Limits(false, max), sch, elem, n, buf, fuel), ParseElems(Limits(true, max), sch, elem, n, buf, fuel))
    decreases fuel, 3 + 2 * Depth(elem), 0, n
  {
    if n > 0 {
      SameOne(max, sch, elem, 0, buf, fuel);
      var one := ParseOne(Limits(false, max), sch, elem, 0, buf, fuel);
      if one.Ok? {
        SameElems(max, sch, elem, n - 1, one.rest, fuel);
      }
    }
  }

  lemma {:induction false} SameStruct(max: nat, sch: Schema, name: Name, boxed: bool, buf: seq<Byte>, fuel: nat)
    ensures Agrees(ParseStruct(Limits(false, max), sch, name, boxed, buf, fuel), ParseStruct(Limits(true, max), sch, name, boxed, buf, fuel))
    decreases fuel, 0, 0
  {
    if name in sch.structs && fuel > 0 && (boxed ==> |buf| >= 4) {
      SameFields(max, sch, sch.structs[name].fields, 0, if boxed then buf[4..] else buf, fuel - 1);
    }
  }

  lemma {:induction false} SameItem(max: nat, sch: Schema, allowed: seq<Name>, buf: seq<Byte>, fuel: nat)
    ensures Agrees(ParseItem(Limits(false, max), sch, allowed, buf, fuel), ParseItem(Limits(true, max), sch, allowed, buf, fuel))
    decreases fuel, 0, 1
  {
    if |buf| >= 4 && FromLe(buf[..4]) in sch.byId {
      SameStruct(max, sch, sch.byId[FromLe(buf[..4])], false, buf[4..], fuel);
    }
  }

  lemma {:induction false} SameItems(max: nat, sch: Schema, allowed: seq<Name>, source: seq<Byte>, fuel: nat)
    ensures Agrees(ParseItems(Limits(false, max), sch, allowed, source, fuel), ParseItems(Limits(true, max), sch, allowed, source, fuel))
    decreases fuel, 1, |source|
  {
    if source != [] {
      SameItem(max, sch, allowed, source, fuel);
      var one := ParseItem(Limits(false, max), sch, allowed, source, fuel);
      if one.Ok? {
        SameItems(max, sch, allowed, one.rest, fuel);
      }
    }
  }

  /** The codec theorem: for every consistent schema, every registered struct and every value of it in normal form that
      can be written, parsing the bytes followed by anything gives the value and leaves what followed, with or without
      the preflight. */
  lemma ParseInvertsWrite(lim: Limits, sch: Schema, name: Name, boxed: bool, vs: seq<Val>, rest: seq<Byte>, fuel: nat)
    requires Consistent(sch) && name in sch.structs
    requires NormalFields(sch, lim.maxElements, sch.structs[name].fields, vs, 0)
    requires EncStruct(sch, name, vs, boxed).Some? && fuel > HeightSeq(vs)
    ensures ParseStruct(lim, sch, name, boxed, EncStruct(sch, name, vs, boxed).value + rest, fuel) == Ok(vs, rest)
  {
    var wire := EncStruct(sch, name, vs, boxed).value + rest;
    TlRoundTrip.RtStruct(Limits(false, lim.maxElements), sch, name, boxed, vs, rest, fuel);
    SameStruct(lim.maxElements, sch, name, boxed, wire, fuel);
    assert lim == Limits(lim.preflight, lim.maxElements);
  }
}
