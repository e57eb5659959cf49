/** The hand-written packet writer against the TL schema of `adnl.packetContents` (adnl/packet.go): it writes what the generic
    codec writes for that schema, field by field and flag by flag. */
module PacketSchema {
  import opened Options
  import opened TlBytes
  import opened TlSchema
  import opened TlWire
  import opened Packets
  import opened Powers
  import Bits

  lemma {:induction false} TestIsBit(b: Bits.Bits, k: nat)
    requires k < |b|
    ensures TestFlag(Bits.Value(b), k) <==> b[k]
  {
    if k > 0 {
      TestIsBit(b[1..], k - 1);
    }
  }

  /** Bit `k` of a flag word as a number. */
  lemma OnIsBit(b: Bits.Bits, k: nat)
    requires k < |b|
    ensures On(Bits.Value(b), k) <==> b[k]
  {
    hide On, TestFlag;
    TestIsBit(b, k);
    TestFlagIs(Bits.Value(b), k);
  }

  /** How messages and address lists, which have codecs of their own, look to the generic codec. */
  datatype View<!M, !L> = View(sch: Schema, messageType: FieldType, listType: FieldType, message: M -> Val, list: L -> Val)

  ghost predicate Agrees<M(!new), L(!new)>(v: View<M, L>, c: Codec<M, L>) {
    && !v.messageType.FlagsT? && !v.listType.FlagsT?
    && (forall m :: c.encMessage(m) == EncField(v.sch, v.messageType, v.message(m)))
    && (forall l :: c.encList(l) == EncField(v.sch, v.listType, v.list(l)))
  }

  // The fields in the order of the schema, from the last one forward: each list starts with the field it is named after.

  function FromRand2(): seq<Field> {
    [Field(BytesT, None)]
  }

  function FromSignature(): seq<Field> {
    [Field(BytesT, Some(11))] + FromRand2()
  }

  function FromReinit(): seq<Field> {
    [Field(NumT(4, 4), Some(10))] + ([Field(NumT(4, 4), Some(10))] + FromSignature())
  }

  function FromSeqno(): seq<Field> {
    [Field(NumT(8, 8), Some(6))] + ([Field(NumT(8, 8), Some(7))] +
    ([Field(NumT(4, 4), Some(8))] + ([Field(NumT(4, 4), Some(9))] + FromReinit())))
  }

  function FromAddress(listType: FieldType): seq<Field> {
    [Field(listType, Some(4))] + ([Field(listType, Some(5))] + FromSeqno())
  }

  function FromSource(messageType: FieldType, listType: FieldType): seq<Field> {
    [Field(FixedT(36), Some(0))] + ([Field(FixedT(32), Some(1))] +
    ([Field(messageType, Some(2))] + ([Field(VectorT(Field(messageType, None)), Some(3))] + FromAddress(listType))))
  }

  function PacketFields(messageType: FieldType, listType: FieldType): seq<Field> {
    [Field(BytesT, None)] + ([Field(FlagsT, None)] + FromSource(messageType, listType))
  }

  // The values in the same order; a field that is not there holds its zero value.

  function Bytes0(o: Option<seq<Byte>>): Val {
    if o.Some? then Bts(o.value) else Absent
  }

  function Num0(o: Option<nat>): Val {
    if o.Some? then Num(o.value) else Absent
  }

  function ValuesFromSignature<M(!new), L(!new)>(p: Packet<M, L>): seq<Val> {
    [Bytes0(p.signature)] + [Bts(p.rand2)]
  }

  function ValuesFromReinit<M(!new), L(!new)>(p: Packet<M, L>): seq<Val> {
    [Num0(p.fields.reinitDate)] + ([Num0(p.fields.dstReinitDate)] + ValuesFromSignature(p))
  }

  function ValuesFromSeqno<M(!new), L(!new)>(p: Packet<M, L>): seq<Val> {
    [Num0(p.fields.seqno)] + ([Num0(p.fields.confirmSeqno)] +
    ([Num0(p.fields.recvAddrVersion)] + ([Num0(p.fields.recvPriorityAddrVersion)] + ValuesFromReinit(p))))
  }

  function ValuesFromAddress<M(!new), L(!new)>(v: View<M, L>, p: Packet<M, L>): seq<Val> {
    [if p.fields.address.Some? then v.list(p.fields.address.value) else Absent] +
    ([if p.fields.priorityAddress.Some? then v.list(p.fields.priorityAddress.value) else Absent] + ValuesFromSeqno(p))
  }

  function MessageValues<M(!new), L(!new)>(v: View<M, L>, ms: seq<M>): seq<Val> {
    seq(|ms|, i requires 0 <= i < |ms| => v.message(ms[i]))
  }

  function ValuesFromSource<M(!new), L(!new)>(v: View<M, L>, keyId: nat, p: Packet<M, L>): seq<Val> {
    [if p.fields.from.Some? then Bts(Le(keyId, 4) + p.fields.from.value) else Absent] + ([Bytes0(p.fields.fromShort)] +
    ([if |p.fields.messages| == 1 then v.message(p.fields.messages[0]) else Absent] +
    ([Vec(MessageValues(v, p.fields.messages))] + ValuesFromAddress(v, p))))
  }

  function PacketValues<M(!new), L(!new)>(v: View<M, L>, keyId: nat, p: Packet<M, L>): seq<Val> {
    [Bts(p.rand1)] + ([Num(Bits.Value(Flags(p.fields, p.signature.Some?)))] + ValuesFromSource(v, keyId, p))
  }

  // ---- One field in front of the others ----

  lemma Put1(sch: Schema, f: Field, v: Val, fs: seq<Field>, vs: seq<Val>, flags: nat, bytes: seq<Byte>, rest: seq<Byte>)
    requires |fs| == |vs| && !f.typ.FlagsT? && EncFields(sch, fs, vs, flags) == Some(rest)
    requires if Present(f, flags) then EncField(sch, f.typ, v) == Some(bytes) else bytes == []
    ensures |[f] + fs| == |[v] + vs| && EncFields(sch, [f] + fs, [v] + vs, flags) == Some(bytes + rest)
  {
    FieldWritten(sch, [f] + fs, [v] + vs, flags);
    assert ([f] + fs)[1..] == fs && ([v] + vs)[1..] == vs;
    assert [] + rest == rest;
  }

  lemma PutNum(sch: Schema, o: Option<nat>, w: nat, k: nat, fs: seq<Field>, vs: seq<Val>, flags: nat, rest: seq<Byte>)
    requires |fs| == |vs| && EncFields(sch, fs, vs, flags) == Some(rest)
    requires On(flags, k) == o.Some? && (o.Some? ==> o.value < Pow256(w))
    ensures EncFields(sch, [Field(NumT(w, w), Some(k))] + fs, [Num0(o)] + vs, flags) == Some(PutUint(o, w) + rest)
  {
    Put1(sch, Field(NumT(w, w), Some(k)), Num0(o), fs, vs, flags, PutUint(o, w), rest);
  }

  lemma {:induction false} MessagesWritten<M(!new), L(!new)>(v: View<M, L>, c: Codec<M, L>, ms: seq<M>)
    requires Agrees(v, c) && AllEncode(c, ms)
    ensures EncElems(v.sch, Field(v.messageType, None), MessageValues(v, ms)) == Some(PutMessages(c, ms))
    decreases |ms|
  {
    if ms != [] {
      var front, last := ms[..|ms| - 1], ms[|ms| - 1];
      MessagesWritten(v, c, front);
      assert MessageValues(v, ms) == MessageValues(v, front) + [v.message(last)];
      ElemsAppend(v.sch, Field(v.messageType, None), MessageValues(v, front), v.message(last));
    }
  }

  lemma {:induction false} ElemsAppend(sch: Schema, elem: Field, vs: seq<Val>, v: Val)
    requires elem.flag.None? && EncElems(sch, elem, vs).Some? && EncField(sch, elem.typ, v).Some?
    ensures EncElems(sch, elem, vs + [v]) == Some(EncElems(sch, elem, vs).value + EncField(sch, elem.typ, v).value)
    decreases |vs|
  {
    var one := EncField(sch, elem.typ, v).value;
    if vs == [] {
      assert vs + [v] == [v] && [v][1..] == [];
      assert one + [] == one && [] + one == one;
    } else {
      ElemsAppend(sch, elem, vs[1..], v);
      assert (vs + [v])[1..] == vs[1..] + [v];
      ElementWritten(sch, elem, vs);
      ElementWritten(sch, elem, vs + [v]);
      Assoc(EncField(sch, elem.typ, vs[0]).value, EncElems(sch, elem, vs[1..]).value, one);
    }
  }

  ghost predicate FlagsAre<M(!new), L(!new)>(f: Fields<M, L>, signed: bool, flags: nat) {
    && On(flags, 0) == f.from.Some? && On(flags, 1) == f.fromShort.Some?
    && On(flags, 2) == (|f.messages| <= 1) && On(flags, 3) == (|f.messages| > 1)
    && On(flags, 4) == f.address.Some? && On(flags, 5) == f.priorityAddress.Some?
    && On(flags, 6) == f.seqno.Some? && On(flags, 7) == f.confirmSeqno.Some?
    && On(flags, 8) == f.recvAddrVersion.Some? && On(flags, 9) == f.recvPriorityAddrVersion.Some?
    && On(flags, 10) == f.reinitDate.Some? && On(flags, 11) == signed
  }

  lemma FlagNumber<M(!new), L(!new)>(f: Fields<M, L>, signed: bool)
    ensures FlagsAre(f, signed, Bits.Value(Flags(f, signed)))
    ensures Bits.Value(Flags(f, signed)) < TWO32
  {
    hide On;
    var b := Flags(f, signed);
    FlagsTell(f, signed);
    OnIsBit(b, 0);
    OnIsBit(b, 1);
    OnIsBit(b, 2);
    OnIsBit(b, 3);
    OnIsBit(b, 4);
    OnIsBit(b, 5);
    OnIsBit(b, 6);
    OnIsBit(b, 7);
    OnIsBit(b, 8);
    OnIsBit(b, 9);
    OnIsBit(b, 10);
    OnIsBit(b, SIGNATURE_FLAG);
    Bits.OfNatValue(b);
    WordsFit();
  }

  // ---- The packet, section by section ----

  lemma EndWritten<M(!new), L(!new)>(sch: Schema, p: Packet<M, L>, flags: nat)
    requires On(flags, 11) == p.signature.Some? && FitsWire(p)
    ensures EncFields(sch, FromSignature(), ValuesFromSignature(p), flags) == Some(PutBytes(p.signature) + Wire(p.rand2))
  {
    EncodesNothing(sch, flags);
    assert Wire(p.rand2) + [] == Wire(p.rand2);
    assert [Field(BytesT, None)] + [] == FromRand2() && [Bts(p.rand2)] + [] == [Bts(p.rand2)];
    Put1(sch, Field(BytesT, None), Bts(p.rand2), [], [], flags, Wire(p.rand2), []);
    Put1(sch, Field(BytesT, Some(11)), Bytes0(p.signature), FromRand2(), [Bts(p.rand2)], flags, PutBytes(p.signature), Wire(p.rand2));
  }

  lemma EncodesNothing(sch: Schema, flags: nat)
    ensures EncFields(sch, [], [], flags) == Some([])
  {
  }

  lemma ReinitWritten<M(!new), L(!new)>(sch: Schema, p: Packet<M, L>, flags: nat, rest: seq<Byte>)
    requires EncFields(sch, FromSignature(), ValuesFromSignature(p), flags) == Some(rest)
    requires On(flags, 10) == p.fields.reinitDate.Some? && FitsWire(p) && (p.fields.reinitDate.Some? ==> p.fields.dstReinitDate.Some?)
    ensures EncFields(sch, FromReinit(), ValuesFromReinit(p), flags) == Some(PutReinit(p.fields) + rest)
  {
    hide EncFields, EncField, On;
    PowersOf256();
    var f := p.fields;
    Put1Num(sch, f.dstReinitDate, On(flags, 10), 10, FromSignature(), ValuesFromSignature(p), flags, rest);
    var after := (if f.reinitDate.Some? then Le(f.dstReinitDate.value, 4) else []) + rest;
    PutNum(sch, f.reinitDate, 4, 10, [Field(NumT(4, 4), Some(10))] + FromSignature(), [Num0(f.dstReinitDate)] + ValuesFromSignature(p), flags, after);
    if f.reinitDate.Some? {
      Assoc(Le(f.reinitDate.value, 4), Le(f.dstReinitDate.value, 4), rest);
    } else {
      assert [] + ([] + rest) == [] + rest;
    }
  }

  /** A number that is there whenever its flag is on. */
  lemma Put1Num(sch: Schema, o: Option<nat>, on: bool, k: nat, fs: seq<Field>, vs: seq<Val>, flags: nat, rest: seq<Byte>)
    requires |fs| == |vs| && EncFields(sch, fs, vs, flags) == Some(rest) && On(flags, k) == on
    requires on ==> o.Some? && o.value < Pow256(4)
    ensures EncFields(sch, [Field(NumT(4, 4), Some(k))] + fs, [Num0(o)] + vs, flags) == Some((if on then Le(o.value, 4) else []) + rest)
  {
    Put1(sch, Field(NumT(4, 4), Some(k)), Num0(o), fs, vs, flags, if on then Le(o.value, 4) else [], rest);
  }

  lemma CountersWritten<M(!new), L(!new)>(sch: Schema, p: Packet<M, L>, flags: nat, signed: bool, rest: seq<Byte>)
    requires EncFields(sch, FromReinit(), ValuesFromReinit(p), flags) == Some(rest)
    requires FlagsAre(p.fields, signed, flags) && FitsWire(p)
    ensures EncFields(sch, FromSeqno(), ValuesFromSeqno(p), flags) == Some(PutCounters(p.fields) + rest)
  {
    hide EncFields, On;
    PowersOf256();
    var f := p.fields;
    var (fs3, vs3) := ([Field(NumT(4, 4), Some(9))] + FromReinit(), [Num0(f.recvPriorityAddrVersion)] + ValuesFromReinit(p));
    var (fs2, vs2) := ([Field(NumT(4, 4), Some(8))] + fs3, [Num0(f.recvAddrVersion)] + vs3);
    var (fs1, vs1) := ([Field(NumT(8, 8), Some(7))] + fs2, [Num0(f.confirmSeqno)] + vs2);
    var r3 := PutUint(f.recvPriorityAddrVersion, 4) + rest;
    var r2 := PutUint(f.recvAddrVersion, 4) + r3;
    var r1 := PutUint(f.confirmSeqno, 8) + r2;
    PutNum(sch, f.recvPriorityAddrVersion, 4, 9, FromReinit(), ValuesFromReinit(p), flags, rest);
    PutNum(sch, f.recvAddrVersion, 4, 8, fs3, vs3, flags, r3);
    PutNum(sch, f.confirmSeqno, 8, 7, fs2, vs2, flags, r2);
    PutNum(sch, f.seqno, 8, 6, fs1, vs1, flags, r1);
    FourRegroup(PutUint(f.seqno, 8), PutUint(f.confirmSeqno, 8), PutUint(f.recvAddrVersion, 4), PutUint(f.recvPriorityAddrVersion, 4), rest);
  }

  lemma PutList1<M(!new), L(!new)>(v: View<M, L>, c: Codec<M, L>, o: Option<L>, k: nat, fs: seq<Field>, vs: seq<Val>, flags: nat, rest: seq<Byte>)
    requires Agrees(v, c) && |fs| == |vs| && EncFields(v.sch, fs, vs, flags) == Some(rest) && On(flags, k) == o.Some?
    requires o.Some? ==> c.encList(o.value).Some?
    ensures EncFields(v.sch, [Field(v.listType, Some(k))] + fs, [if o.Some? then v.list(o.value) else Absent] + vs, flags) ==
            Some(PutList(c, o) + rest)
  {
    Put1(v.sch, Field(v.listType, Some(k)), if o.Some? then v.list(o.value) else Absent, fs, vs, flags, PutList(c, o), rest);
  }

  lemma ListsWritten<M(!new), L(!new)>(v: View<M, L>, c: Codec<M, L>, p: Packet<M, L>, flags: nat, signed: bool, rest: seq<Byte>)
    requires Agrees(v, c) && Encodable(c, p.fields) && FlagsAre(p.fields, signed, flags)
    requires EncFields(v.sch, FromSeqno(), ValuesFromSeqno(p), flags) == Some(rest)
    ensures EncFields(v.sch, FromAddress(v.listType), ValuesFromAddress(v, p), flags) ==
            Some(PutList(c, p.fields.address) + (PutList(c, p.fields.priorityAddress) + rest))
  {
    hide EncFields, On;
    PutList1(v, c, p.fields.priorityAddress, 5, FromSeqno(), ValuesFromSeqno(p), flags, rest);
    PutList1(v, c, p.fields.address, 4, [Field(v.listType, Some(5))] + FromSeqno(),
             [if p.fields.priorityAddress.Some? then v.list(p.fields.priorityAddress.value) else Absent] + ValuesFromSeqno(p), flags,
             PutList(c, p.fields.priorityAddress) + rest);
  }

  /** One message alone, or several behind their count. */
  lemma BodyWritten<M(!new), L(!new)>(v: View<M, L>, c: Codec<M, L>, p: Packet<M, L>, flags: nat, signed: bool, fs: seq<Field>, vs: seq<Val>,
                                      rest: seq<Byte>)
    requires Agrees(v, c) && Encodable(c, p.fields) && FlagsAre(p.fields, signed, flags)
    requires |fs| == |vs| && EncFields(v.sch, fs, vs, flags) == Some(rest)
    ensures var ms := p.fields.messages;
            EncFields(v.sch, [Field(v.messageType, Some(2))] + ([Field(VectorT(Field(v.messageType, None)), Some(3))] + fs),
                      [if |ms| == 1 then v.message(ms[0]) else Absent] + ([Vec(MessageValues(v, ms))] + vs), flags) ==
            Some(PutAllMessages(c, ms) + rest)
  {
    var ms := p.fields.messages;
    var many := Field(VectorT(Field(v.messageType, None)), Some(3));
    var all, one := Vec(MessageValues(v, ms)), if |ms| == 1 then v.message(ms[0]) else Absent;
    MessagesWritten(v, c, ms);
    SplitMessages(c, ms);
    hide EncFields, On;
    Put1(v.sch, many, all, fs, vs, flags, if |ms| > 1 then PutAllMessages(c, ms) else [], rest);
    Put1(v.sch, Field(v.messageType, Some(2)), one, [many] + fs, [all] + vs, flags, if |ms| == 1 then PutAllMessages(c, ms) else [],
         (if |ms| > 1 then PutAllMessages(c, ms) else []) + rest);
    assert [] + rest == rest;
    assert [] + (PutAllMessages(c, ms) + rest) == PutAllMessages(c, ms) + rest;
  }

  lemma SplitMessages<M(!new), L(!new)>(c: Codec<M, L>, ms: seq<M>)
    requires AllEncode(c, ms)
    ensures |ms| == 1 ==> c.encMessage(ms[0]) == Some(PutAllMessages(c, ms))
    ensures |ms| > 1 ==> PutAllMessages(c, ms) == Le(|ms|, 4) + PutMessages(c, ms)
  {
    if |ms| == 1 {
      var bytes := c.encMessage(ms[0]).value;
      assert ms[..0] == [];
      assert PutMessages(c, ms) == [] + bytes;
      assert [] + ([] + bytes) == bytes;
    }
  }

  lemma SourceWritten<M(!new), L(!new)>(v: View<M, L>, c: Codec<M, L>, p: Packet<M, L>, flags: nat, signed: bool, fs: seq<Field>, vs: seq<Val>,
                                        rest: seq<Byte>)
    requires Encodable(c, p.fields) && FlagsAre(p.fields, signed, flags) && Restorable(p.fields)
    requires |fs| == |vs| && EncFields(v.sch, fs, vs, flags) == Some(rest)
    ensures EncFields(v.sch, [Field(FixedT(36), Some(0))] + ([Field(FixedT(32), Some(1))] + fs),
                      [if p.fields.from.Some? then Bts(Le(c.keyId, 4) + p.fields.from.value) else Absent] +
                      ([Bytes0(p.fields.fromShort)] + vs), flags) ==
            Some(PutKey(c.keyId, p.fields.from) + (PutShort(p.fields.fromShort) + rest))
  {
    hide EncFields, On;
    var f := p.fields;
    Put1(v.sch, Field(FixedT(32), Some(1)), Bytes0(f.fromShort), fs, vs, flags, PutShort(f.fromShort), rest);
    Put1(v.sch, Field(FixedT(36), Some(0)), if f.from.Some? then Bts(Le(c.keyId, 4) + f.from.value) else Absent,
         [Field(FixedT(32), Some(1))] + fs, [Bytes0(f.fromShort)] + vs, flags, PutKey(c.keyId, f.from), PutShort(f.fromShort) + rest);
  }

  /** Everything behind the flag word. */
  lemma FieldsWritten<M(!new), L(!new)>(v: View<M, L>, c: Codec<M, L>, p: Packet<M, L>, flags: nat)
    requires Agrees(v, c) && Encodable(c, p.fields) && FitsWire(p) && Restorable(p.fields)
    requires FlagsAre(p.fields, p.signature.Some?, flags)
    ensures |FromSource(v.messageType, v.listType)| == |ValuesFromSource(v, c.keyId, p)|
    ensures EncFields(v.sch, FromSource(v.messageType, v.listType), ValuesFromSource(v, c.keyId, p), flags) ==
            Some(PutFields(c, p.fields) + (PutBytes(p.signature) + Wire(p.rand2)))
  {
    hide EncFields, On, Agrees, Encodable, FitsWire;
    var f, signed, end := p.fields, p.signature.Some?, PutBytes(p.signature) + Wire(p.rand2);
    EndWritten(v.sch, p, flags);
    MustHaveDestination(c, f);
    ReinitWritten(v.sch, p, flags, end);
    CountersWritten(v.sch, p, flags, signed, PutReinit(f) + end);
    var r := PutCounters(f) + (PutReinit(f) + end);
    ListsWritten(v, c, p, flags, signed, r);
    var r' := ListBytes(c, f, r);
    BodyWritten(v, c, p, flags, signed, FromAddress(v.listType), ValuesFromAddress(v, p), r');
    FinishFields(v, c, p, flags, signed, r', end);
  }

  lemma MustHaveDestination<M(!new), L(!new)>(c: Codec<M, L>, f: Fields<M, L>)
    requires Encodable(c, f)
    ensures f.reinitDate.Some? ==> f.dstReinitDate.Some?
  {
  }

  ghost function ListBytes<M(!new), L(!new)>(c: Codec<M, L>, f: Fields<M, L>, rest: seq<Byte>): seq<Byte>
    requires Encodable(c, f)
  {
    PutList(c, f.address) + (PutList(c, f.priorityAddress) + rest)
  }

  lemma FinishFields<M(!new), L(!new)>(v: View<M, L>, c: Codec<M, L>, p: Packet<M, L>, flags: nat, signed: bool, r: seq<Byte>, end: seq<Byte>)
    requires Encodable(c, p.fields) && FlagsAre(p.fields, signed, flags) && Restorable(p.fields)
    requires r == ListBytes(c, p.fields, PutCounters(p.fields) + (PutReinit(p.fields) + end))
    requires var ms := p.fields.messages;
             EncFields(v.sch, [Field(v.messageType, Some(2))] + ([Field(VectorT(Field(v.messageType, None)), Some(3))] + FromAddress(v.listType)),
                       [if |ms| == 1 then v.message(ms[0]) else Absent] + ([Vec(MessageValues(v, ms))] + ValuesFromAddress(v, p)), flags) ==
             Some(PutAllMessages(c, ms) + r)
    ensures EncFields(v.sch, FromSource(v.messageType, v.listType), ValuesFromSource(v, c.keyId, p), flags) == Some(PutFields(c, p.fields) + end)
  {
    hide EncFields, On;
    var f := p.fields;
    SourceWritten(v, c, p, flags, signed,
                  [Field(v.messageType, Some(2))] + ([Field(VectorT(Field(v.messageType, None)), Some(3))] + FromAddress(v.listType)),
                  [if |f.messages| == 1 then v.message(f.messages[0]) else Absent] + ([Vec(MessageValues(v, f.messages))] + ValuesFromAddress(v, p)),
                  PutAllMessages(c, f.messages) + r);
    FieldsRegroup(PutKey(c.keyId, f.from), PutShort(f.fromShort), PutAllMessages(c, f.messages), PutList(c, f.address),
                  PutList(c, f.priorityAddress), PutCounters(f), PutReinit(f), end);
  }

  /** The packet writer and the generic codec agree on every packet that can be restored. */
  lemma WriterFollowsSchema<M(!new), L(!new)>(v: View<M, L>, c: Codec<M, L>, p: Packet<M, L>)
    requires Agrees(v, c) && Encodable(c, p.fields) && FitsWire(p) && Restorable(p.fields)
    ensures Cat(Some(Le(c.packetId, 4)), EncFields(v.sch, PacketFields(v.messageType, v.listType), PacketValues(v, c.keyId, p), 0)) ==
            Some(Bytes(c, p))
  {
    var flags := Bits.Value(Flags(p.fields, p.signature.Some?));
    FlagNumber(p.fields, p.signature.Some?);
    FieldsWritten(v, c, p, flags);
    StartWritten(v.sch, p.rand1, flags, FromSource(v.messageType, v.listType), ValuesFromSource(v, c.keyId, p),
                 PutFields(c, p.fields) + (PutBytes(p.signature) + Wire(p.rand2)));
    hide EncFields;
    Assoc(Le(c.packetId, 4), Wire(p.rand1), Le(flags, 4) + (PutFields(c, p.fields) + (PutBytes(p.signature) + Wire(p.rand2))));
  }

  lemma StartWritten(sch: Schema, rand1: seq<Byte>, flags: nat, fs: seq<Field>, vs: seq<Val>, rest: seq<Byte>)
    requires |fs| == |vs| && EncFields(sch, fs, vs, flags) == Some(rest) && flags < TWO32 && |rand1| < TWO32
    ensures EncFields(sch, [Field(BytesT, None)] + ([Field(FlagsT, None)] + fs), [Bts(rand1)] + ([Num(flags)] + vs), 0) ==
            Some(Wire(rand1) + (Le(flags, 4) + rest))
  {
    FieldWritten(sch, [Field(FlagsT, None)] + fs, [Num(flags)] + vs, 0);
    assert ([Field(FlagsT, None)] + fs)[1..] == fs && ([Num(flags)] + vs)[1..] == vs;
    assert EncFields(sch, [Field(FlagsT, None)] + fs, [Num(flags)] + vs, 0) == Some(Le(flags, 4) + rest);
    Put1(sch, Field(BytesT, None), Bts(rand1), [Field(FlagsT, None)] + fs, [Num(flags)] + vs, 0, Wire(rand1), Le(flags, 4) + rest);
  }
}
