/** What the TL format looks like on the wire, in numbers and byte places: which fields a flags word lets through, the bytes of
    each kind, and how tight the size analyses are (tl/precompile.go). */
module TlWire {
  import opened Options
  import opened Powers
  import opened BitNumbers
  import opened TlBytes
  import opened TlSchema
  import opened TlSize
  import opened TlFixed
  import opened TlParse

  // ---- Flags ----

  /** Bit `k` of the flags word is on. */
  predicate On(flags: nat, k: nat) {
    flags / Pow2(k) % 2 == 1
  }

  lemma {:induction false} TestFlagIs(flags: nat, k: nat)
    ensures TestFlag(flags, k) <==> On(flags, k)
  {
    if k > 0 {
      TestFlagIs(flags / 2, k - 1);
      HalfThenRest(flags, Pow2(k - 1));
    }
  }

  predicate Present(f: Field, flags: nat) {
    f.flag.Some? ==> On(flags, f.flag.value)
  }

  /** A field under a flag takes no bytes when its bit is off, and exactly its own encoding otherwise. A flags field sets the
      word for the fields behind it. */
  lemma FieldWritten(sch: Schema, fs: seq<Field>, vs: seq<Val>, flags: nat)
    requires |fs| == |vs| > 0
    ensures !Present(fs[0], flags) ==> EncFields(sch, fs, vs, flags) == EncFields(sch, fs[1..], vs[1..], flags)
    ensures Present(fs[0], flags) ==>
              EncFields(sch, fs, vs, flags) ==
              Cat(EncField(sch, fs[0].typ, vs[0]),
                  EncFields(sch, fs[1..], vs[1..], if fs[0].typ.FlagsT? && vs[0].Num? then vs[0].n else flags))
  {
    if fs[0].flag.Some? {
      TestFlagIs(flags, fs[0].flag.value);
    }
  }

  function Behind(v: Val, p: Parsed<seq<Val>>): Parsed<seq<Val>> {
    match p
    case Ok(vs, rest) => Ok([v] + vs, rest)
    case Bad => Bad
    case NoFuel => NoFuel
  }

  /** The same of reading: no bytes are taken for a field whose bit is off, and its own otherwise. */
  lemma FieldRead(lim: Limits, sch: Schema, fs: seq<Field>, flags: nat, buf: seq<Byte>, fuel: nat)
    requires fs != []
    ensures !Present(fs[0], flags) ==>
              ParseFields(lim, sch, fs, flags, buf, fuel) == Behind(Absent, ParseFields(lim, sch, fs[1..], flags, buf, fuel))
    ensures Present(fs[0], flags) && ParseField(lim, sch, fs[0], buf, fuel).Ok? ==>
              var one := ParseField(lim, sch, fs[0], buf, fuel);
              ParseFields(lim, sch, fs, flags, buf, fuel) ==
              Behind(one.value, ParseFields(lim, sch, fs[1..], if fs[0].typ.FlagsT? && one.value.Num? then one.value.n else flags, one.rest, fuel))
    ensures Present(fs[0], flags) && !ParseField(lim, sch, fs[0], buf, fuel).Ok? ==> !ParseFields(lim, sch, fs, flags, buf, fuel).Ok?
  {
    if fs[0].flag.Some? {
      TestFlagIs(flags, fs[0].flag.value);
    }
  }

  /** Vector elements stand alone: one under a flag is never there, any other is written in order. */
  lemma ElementWritten(sch: Schema, elem: Field, vs: seq<Val>)
    requires vs != []
    ensures elem.flag.Some? ==> EncElems(sch, elem, vs) == Cat(Some([]), EncElems(sch, elem, vs[1..]))
    ensures elem.flag.None? ==> EncElems(sch, elem, vs) == Cat(EncField(sch, elem.typ, vs[0]), EncElems(sch, elem, vs[1..]))
  {
    if elem.flag.Some? {
      TestFlagIs(0, elem.flag.value);
    }
  }

  // ---- The bytes of each kind ----

  /** Byte `i` of a little-endian number. */
  lemma {:induction false} LeByte(n: nat, w: nat, i: nat)
    requires i < w
    ensures Le(n, w)[i] == n / Pow256(i) % 256
  {
    if i > 0 {
      LeByte(n / 256, w - 1, i - 1);
      DivBy256(n, Pow256(i - 1));
    }
  }

  lemma DivBy256(n: nat, m: nat)
    requires m > 0
    ensures n / 256 / m == n / (256 * m)
  {
    var q := n / 256 / m;
    var r := n / 256 % m;
    assert n / 256 == m * q + r;
    assert n == 256 * (n / 256) + n % 256;
    assert n == 256 * m * q + (256 * r + n % 256);
    QuotientIs(n, 256 * m, q, 256 * r + n % 256);
  }

  /** A number goes out lowest byte first, and not at all when it is wider than its type. */
  lemma NumberForm(sch: Schema, n: nat, wire: nat, width: nat, i: nat)
    ensures EncField(sch, NumT(wire, width), Num(n)).Some? <==> n < Pow256(width)
    ensures n < Pow256(width) && i < wire ==> EncField(sch, NumT(wire, width), Num(n)).value[i] == n / Pow256(i) % 256
  {
    if i < wire {
      LeByte(n, wire, i);
    }
  }

  /** The two constants of a boolean, short addresses backwards and long ones as they are, and a vector behind its count. */
  lemma WireForms(sch: Schema, b: seq<Byte>, elem: Field, vs: seq<Val>)
    ensures EncField(sch, BoolT, Boolean(true)) == Some([0xB5, 0x75, 0x72, 0x99])
    ensures EncField(sch, BoolT, Boolean(false)) == Some([0x37, 0x97, 0x79, 0xBC])
    ensures |b| == 4 ==> EncField(sch, Ip4T, Bts(b)) == Some([b[3], b[2], b[1], b[0]])
    ensures |b| == 16 ==> EncField(sch, Ip6T, Bts(b)) == Some(b)
    ensures EncField(sch, FixedT(|b|), Bts(b)) == Some(b)
    ensures |vs| < TWO32 ==>
              EncField(sch, VectorT(elem), Vec(vs)) ==
              Cat(Some([|vs| % 256, |vs| / 0x100 % 256, |vs| / 0x1_0000 % 256, |vs| / 0x100_0000]), EncElems(sch, elem, vs))
  {
    LeFour(BOOL_TRUE);
    LeFour(BOOL_FALSE);
    if |vs| < TWO32 {
      LeFour(|vs|);
    }
  }

  lemma LeFour(n: nat)
    requires n < TWO32
    ensures Le(n, 4) == [n % 256, n / 0x100 % 256, n / 0x1_0000 % 256, n / 0x100_0000]
  {
    PowersOf256();
    LeByte(n, 4, 0);
    LeByte(n, 4, 1);
    LeByte(n, 4, 2);
    LeByte(n, 4, 3);
  }

  /** A byte string: one length byte below 254, else 254 and three, from 2^24 on 255, four and three zeros; then the data, then zeros up
      to a multiple of four. */
  lemma BytesForm(data: seq<Byte>)
    requires |data| < TWO32
    ensures var n, b := |data|, Encode(data).value;
            var header := if n < 254 then [n]
                          else if n < 0x100_0000 then [254, n % 256, n / 0x100 % 256, n / 0x1_0000]
                          else [255, n % 256, n / 0x100 % 256, n / 0x1_0000 % 256, n / 0x100_0000, 0, 0, 0];
            && |b| % 4 == 0 && |b| < |header| + n + 4 && b[..|header|] == header && b[|header|..|header| + n] == data
            && forall i :: |header| + n <= i < |b| ==> b[i] == 0
  {
    var n := |data|;
    if n >= 254 && n < TWO24 {
      LeFour(n * 256 + 0xFE);
    } else if n >= TWO24 {
      LeFour(n);
    }
    var b := Encode(data).value;
    assert b[..HeaderLen(n)] == Header(n);
    assert b[HeaderLen(n)..HeaderLen(n) + n] == data;
  }

  /** How each kind is read: numbers cut to their width, any word but the one constant is false, and too few bytes are refused. */
  lemma ReadForms(lim: Limits, sch: Schema, flag: Option<nat>, buf: seq<Byte>, size: nat, wire: nat, width: nat, fuel: nat)
    ensures var r := ParseField(lim, sch, Field(BoolT, flag), buf, fuel);
            if |buf| < 4 then r == Bad else r == Ok(Boolean(buf[..4] == [0xB5, 0x75, 0x72, 0x99]), buf[4..])
    ensures var r := ParseField(lim, sch, Field(Ip4T, flag), buf, fuel);
            if |buf| < 4 then r == Bad else r == Ok(Bts([buf[3], buf[2], buf[1], buf[0]]), buf[4..])
    ensures var r := ParseField(lim, sch, Field(FixedT(size), flag), buf, fuel);
            if |buf| < size then r == Bad else r == Ok(Bts(buf[..size]), buf[size..])
    ensures var r := ParseField(lim, sch, Field(NumT(wire, width), flag), buf, fuel);
            if |buf| < wire then r == Bad else r == Ok(Num(FromLe(buf[..wire]) % Pow256(width)), buf[wire..])
  {
    if |buf| >= 4 {
      PowersOf256();
      FromLeFour(buf[..4]);
    }
  }

  lemma FromLeFour(b: seq<Byte>)
    requires |b| == 4
    ensures FromLe(b) == (b[0] as int) + 0x100 * (b[1] as int) + 0x1_0000 * (b[2] as int) + 0x100_0000 * (b[3] as int)
    ensures FromLe(b) == BOOL_TRUE <==> b == [0xB5, 0x75, 0x72, 0x99]
  {
    var (b1, b2, b3) := (b[1..], b[2..], b[3..]);
    assert b1[1..] == b2 && b2[1..] == b3 && b3[1..] == [];
    assert FromLe(b3) == b3[0] as int;
    assert FromLe(b2) == (b2[0] as int) + 256 * FromLe(b3);
    assert FromLe(b1) == (b1[0] as int) + 256 * FromLe(b2);
    if FromLe(b) == BOOL_TRUE {
      assert b == [0xB5, 0x75, 0x72, 0x99];
    }
  }

  /** An interface takes any registered struct when no name is given, and only the named ones otherwise. */
  lemma AllowedForms(sch: Schema, name: Name, vs: seq<Val>, allowed: seq<Name>)
    requires name in sch.structs
    ensures EncField(sch, IfaceT([], false), Dyn(name, vs)) == EncField(sch, StructT(name, true, false), Rec(vs))
    ensures name in allowed ==> EncField(sch, IfaceT(allowed, false), Dyn(name, vs)) == EncField(sch, StructT(name, true, false), Rec(vs))
    ensures allowed != [] && name !in allowed ==> EncField(sch, IfaceT(allowed, false), Dyn(name, vs)).None?
  {
  }

  /** A boxed struct starts with its constructor id, a bare one with its first field; wrapped, it is one byte string. */
  lemma StructForms(sch: Schema, name: Name, vs: seq<Val>)
    requires name in sch.structs && sch.structs[name].id < TWO32
    ensures var id := sch.structs[name].id;
            var body := EncFields(sch, sch.structs[name].fields, vs, 0);
            var boxed := Cat(Some([id % 256, id / 0x100 % 256, id / 0x1_0000 % 256, id / 0x100_0000]), body);
            && EncField(sch, StructT(name, false, false), Rec(vs)) == body
            && EncField(sch, StructT(name, true, false), Rec(vs)) == boxed
            && EncField(sch, StructT(name, true, true), Rec(vs)) == (if boxed.Some? then Encode(boxed.value) else None)
            && EncField(sch, IfaceT([name], false), Dyn(name, vs)) == boxed
  {
    LeFour(sch.structs[name].id);
    var body := EncFields(sch, sch.structs[name].fields, vs, 0);
    if body.Some? {
      assert [] + body.value == body.value;
    }
  }

  /** A boxed struct is read only behind its own constructor id, an interface value behind the id of a registered struct that the
      field allows. */
  lemma IdsAreChecked(lim: Limits, sch: Schema, name: Name, allowed: seq<Name>, buf: seq<Byte>, fuel: nat)
    requires name in sch.structs && fuel > 0
    ensures ParseStruct(lim, sch, name, false, buf, fuel) == ParseFields(lim, sch, sch.structs[name].fields, 0, buf, fuel - 1)
    ensures |buf| < 4 || FromLe(buf[..4]) != sch.structs[name].id ==> ParseStruct(lim, sch, name, true, buf, fuel) == Bad
    ensures |buf| >= 4 && FromLe(buf[..4]) == sch.structs[name].id ==>
              ParseStruct(lim, sch, name, true, buf, fuel) == ParseFields(lim, sch, sch.structs[name].fields, 0, buf[4..], fuel - 1)
    ensures |buf| < 4 || FromLe(buf[..4]) !in sch.byId ==> ParseItem(lim, sch, allowed, buf, fuel) == Bad
    ensures |buf| >= 4 && FromLe(buf[..4]) in sch.byId && allowed != [] && sch.byId[FromLe(buf[..4])] !in allowed ==>
              ParseItem(lim, sch, allowed, buf, fuel) == Bad
    ensures ParseItem(lim, sch, allowed, buf, fuel).Ok? ==>
              ParseItem(lim, sch, allowed, buf, fuel).value.Dyn? && ParseItem(lim, sch, allowed, buf, fuel).value.name == sch.byId[FromLe(buf[..4])]
  {
  }

  /** A vector is refused before its elements are read when it has more of them than allowed, or too few bytes are left for them. */
  lemma VectorRefused(lim: Limits, sch: Schema, elem: Field, flag: Option<nat>, buf: seq<Byte>, fuel: nat)
    ensures |buf| < 4 ==> ParseField(lim, sch, Field(VectorT(elem), flag), buf, fuel) == Bad
    ensures |buf| >= 4 && lim.maxElements > 0 && FromLe(buf[..4]) > lim.maxElements ==>
              ParseField(lim, sch, Field(VectorT(elem), flag), buf, fuel) == Bad
    ensures 4 <= |buf| < MAX64 && lim.preflight && MinField(sch, elem, {}) * FromLe(buf[..4]) > |buf| - 4 ==>
              ParseField(lim, sch, Field(VectorT(elem), flag), buf, fuel) == Bad
  {
    if |buf| >= 4 {
      MinPayloadIs(MinField(sch, elem, {}), FromLe(buf[..4]));
    }
  }

  lemma MinPayloadIs(elem: nat, n: nat)
    ensures MinPayload(elem, n) == if elem * n > MAX64 then MAX64 else elem * n
  {
    if elem > 0 {
      QuotientAbove(elem, n);
    }
  }

  lemma QuotientAbove(elem: nat, n: nat)
    requires elem > 0
    ensures n > MAX64 / elem <==> elem * n > MAX64
  {
    var q := MAX64 / elem;
    assert MAX64 == elem * q + MAX64 % elem;
    MulStep(elem, q, n);
    MulStep(elem, n, q);
  }

  // ---- How tight the sizes are ----

  /** Some value of the kind takes exactly the least size, so the analysis gives away nothing. */
  lemma MinimumIsReached(sch: Schema, f: Field) returns (v: Val)
    requires f.flag.None? && !f.typ.StructT? && !f.typ.IfaceT?
    ensures EncField(sch, f.typ, v).Some? && |EncField(sch, f.typ, v).value| == MinField(sch, f, {})
  {
    match f.typ
    case FlagsT => v := Num(0);
    case NumT(_, _) => v := Num(0);
    case BoolT => v := Boolean(true);
    case VectorT(elem) =>
      v := Vec([]);
      assert Le(0, 4) + [] == Le(0, 4);
    case _ => v := Bts([]);
  }

  /** A struct in place needs what its fields need, four bytes more when boxed, and four in all when wrapped; a field that may be
      absent needs nothing. */
  lemma MinimumOfHeld(sch: Schema, name: Name, boxed: bool, k: nat, visiting: set<Name>)
    requires MinStruct(sch, name, visiting) < MAX64 - 4
    ensures MinField(sch, Field(StructT(name, boxed, false), None), visiting) == MinStruct(sch, name, visiting) + if boxed then 4 else 0
    ensures MinField(sch, Field(StructT(name, boxed, true), None), visiting) == 4
    ensures MinField(sch, Field(StructT(name, boxed, false), Some(k)), visiting) == 0
    ensures MinField(sch, Field(IfaceT([name], false), None), visiting) == MinStruct(sch, name, visiting) + 4
  {
    assert [name][1..] == [];
    assert MinAllowed(sch, [name], visiting) == MinStruct(sch, name, visiting);
  }

  function SumOfKinds(fs: seq<Field>): nat {
    if fs == [] then 0 else FixedKind(fs[0].typ) + SumOfKinds(fs[1..])
  }

  /** Without structs inside, a list of fields has a fixed size exactly when each field is always there and of a kind that always
      takes the same room; the size is their sum. */
  lemma {:induction false} FlatFixedIff(sch: Schema, fs: seq<Field>, visiting: set<Name>)
    requires forall i :: 0 <= i < |fs| ==> !fs[i].typ.StructT?
    ensures FixFields(sch, fs, visiting) ==
            if (forall i :: 0 <= i < |fs| ==> fs[i].flag.None? && FixedKind(fs[i].typ) > 0) && SumOfKinds(fs) <= MAX64
            then Some(SumOfKinds(fs)) else None
  {
    if fs != [] {
      FlatFixedIff(sch, fs[1..], visiting);
      assert fs == [fs[0]] + fs[1..];
    }
  }
}
