/** The ADNL packet format (adnl/packet.go): a flag word says which fields follow, and the signature covers the packet without
    itself. Messages and address lists have codecs of their own. */
module Packets {
  import opened Options
  import opened TlBytes
  import opened TlBuffer
  import opened Powers
  import Bits

  /** Everything between the flag word and the signature. */
  datatype Fields<M, L> = Fields(
    from: Option<seq<Byte>>, fromShort: Option<seq<Byte>>, messages: seq<M>,
    address: Option<L>, priorityAddress: Option<L>, seqno: Option<nat>, confirmSeqno: Option<nat>,
    recvAddrVersion: Option<nat>, recvPriorityAddrVersion: Option<nat>, reinitDate: Option<nat>, dstReinitDate: Option<nat>)

  datatype Packet<M, L> = Packet(rand1: seq<Byte>, fields: Fields<M, L>, signature: Option<seq<Byte>>, rand2: seq<Byte>)

  datatype Codec<!M, !L> = Codec(
    packetId: nat, keyId: nat,
    encMessage: M -> Option<seq<Byte>>, decMessage: seq<Byte> -> Option<(M, seq<Byte>)>,
    encList: L -> Option<seq<Byte>>, decList: seq<Byte> -> Option<(L, seq<Byte>)>)

  ghost predicate Inverts<T(!new)>(enc: T -> Option<seq<Byte>>, dec: seq<Byte> -> Option<(T, seq<Byte>)>) {
    forall v, rest :: enc(v).Some? ==> dec(enc(v).value + rest) == Some((v, rest))
  }

  ghost predicate Sound<M(!new), L(!new)>(c: Codec<M, L>) {
    c.packetId < TWO32 && c.keyId < TWO32 && Inverts(c.encMessage, c.decMessage) && Inverts(c.encList, c.decList)
  }

  ghost predicate IsSuffix(rest: seq<Byte>, data: seq<Byte>) {
    |rest| <= |data| && rest == data[|data| - |rest|..]
  }

  /** What was read of `data` to leave `rest`. */
  function Used(data: seq<Byte>, rest: seq<Byte>): seq<Byte>
    requires |rest| <= |data|
  {
    data[..|data| - |rest|]
  }

  /** A decoder leaves a suffix of its input and looks at nothing behind what it reads. */
  ghost predicate ReadsAhead<T(!new)>(dec: seq<Byte> -> Option<(T, seq<Byte>)>) {
    forall data, other :: LocalAt(dec, data, other)
  }

  ghost predicate LocalAt<T(!new)>(dec: seq<Byte> -> Option<(T, seq<Byte>)>, data: seq<Byte>, other: seq<Byte>) {
    dec(data).Some? ==>
      && IsSuffix(dec(data).value.1, data)
      && dec(Used(data, dec(data).value.1) + other) == Some((dec(data).value.0, other))
  }

  ghost predicate Local<M(!new), L(!new)>(c: Codec<M, L>) {
    ReadsAhead(c.decMessage) && ReadsAhead(c.decList)
  }

  // ---- One field at a time ----

  function Wire(data: seq<Byte>): seq<Byte> {
    var e := Encode(data);
    if e.Some? then e.value else []
  }

  function PutUint(o: Option<nat>, w: nat): seq<Byte> {
    if o.Some? then Le(o.value, w) else []
  }

  function TakeUint(on: bool, w: nat, data: seq<Byte>): Option<(Option<nat>, seq<Byte>)> {
    if !on then Some((None, data))
    else if |data| < w then None
    else Some((Some(FromLe(data[..w])), data[w..]))
  }

  lemma UintReads(o: Option<nat>, w: nat, rest: seq<Byte>)
    requires o.Some? ==> o.value < Pow256(w)
    ensures TakeUint(o.Some?, w, PutUint(o, w) + rest) == Some((o, rest))
  {
    if o.Some? {
      LeRoundTrip(o.value, w);
      assert (PutUint(o, w) + rest)[..w] == Le(o.value, w) && (PutUint(o, w) + rest)[w..] == rest;
    } else {
      assert PutUint(o, w) + rest == rest;
    }
  }

  function PutBytes(o: Option<seq<Byte>>): seq<Byte> {
    if o.Some? then Wire(o.value) else []
  }

  function TakeBytes(on: bool, data: seq<Byte>): Option<(Option<seq<Byte>>, seq<Byte>)> {
    if !on then Some((None, data))
    else
      var r :- FromBytes(data);
      Some((Some(r.0), r.1))
  }

  lemma BytesRead(o: Option<seq<Byte>>, rest: seq<Byte>)
    requires o.Some? ==> |o.value| < TWO32
    ensures TakeBytes(o.Some?, PutBytes(o) + rest) == Some((o, rest))
  {
    if o.Some? {
      FromBytesInvertsEncode(o.value, rest);
    } else {
      assert PutBytes(o) + rest == rest;
    }
  }

  const KEY_SIZE: nat := 32

  function PutKey(keyId: nat, o: Option<seq<Byte>>): seq<Byte> {
    if o.Some? then Le(keyId, 4) + o.value else []
  }

  function TakeKey(keyId: nat, on: bool, data: seq<Byte>): Option<(Option<seq<Byte>>, seq<Byte>)> {
    if !on then Some((None, data))
    else if |data| < 4 || FromLe(data[..4]) != keyId || |data| < 4 + KEY_SIZE then None
    else Some((Some(data[4..4 + KEY_SIZE]), data[4 + KEY_SIZE..]))
  }

  lemma KeyReads(keyId: nat, o: Option<seq<Byte>>, rest: seq<Byte>)
    requires keyId < TWO32 && (o.Some? ==> |o.value| == KEY_SIZE)
    ensures TakeKey(keyId, o.Some?, PutKey(keyId, o) + rest) == Some((o, rest))
  {
    var data := PutKey(keyId, o) + rest;
    if o.Some? {
      PowersOf256();
      LeRoundTrip(keyId, 4);
      assert data[..4] == Le(keyId, 4) && data[4..4 + KEY_SIZE] == o.value && data[4 + KEY_SIZE..] == rest;
    } else {
      assert data == rest;
    }
  }

  function PutShort(o: Option<seq<Byte>>): seq<Byte> {
    if o.Some? then o.value else []
  }

  function TakeShort(on: bool, data: seq<Byte>): Option<(Option<seq<Byte>>, seq<Byte>)> {
    if !on then Some((None, data))
    else if |data| < KEY_SIZE then None
    else Some((Some(data[..KEY_SIZE]), data[KEY_SIZE..]))
  }

  lemma ShortReads(o: Option<seq<Byte>>, rest: seq<Byte>)
    requires o.Some? ==> |o.value| == KEY_SIZE
    ensures TakeShort(o.Some?, PutShort(o) + rest) == Some((o, rest))
  {
    var data := PutShort(o) + rest;
    if o.Some? {
      assert data[..KEY_SIZE] == o.value && data[KEY_SIZE..] == rest;
    } else {
      assert data == rest;
    }
  }

  function PutList<M(!new), L(!new)>(c: Codec<M, L>, o: Option<L>): seq<Byte>
    requires o.Some? ==> c.encList(o.value).Some?
  {
    if o.Some? then c.encList(o.value).value else []
  }

  function TakeList<M(!new), L(!new)>(c: Codec<M, L>, on: bool, data: seq<Byte>): (r: Option<(Option<L>, seq<Byte>)>)
    requires Local(c)
    ensures r.Some? ==> |r.value.1| <= |data|
  {
    if !on then Some((None, data))
    else
      assert LocalAt(c.decList, data, []);
      var r :- c.decList(data);
      Some((Some(r.0), r.1))
  }

  lemma ListReads<M(!new), L(!new)>(c: Codec<M, L>, o: Option<L>, rest: seq<Byte>)
    requires Sound(c) && Local(c) && (o.Some? ==> c.encList(o.value).Some?)
    ensures TakeList(c, o.Some?, PutList(c, o) + rest) == Some((o, rest))
  {
    if o.None? {
      assert PutList(c, o) + rest == rest;
    }
  }

  ghost predicate AllEncode<M(!new), L(!new)>(c: Codec<M, L>, ms: seq<M>) {
    forall i :: 0 <= i < |ms| ==> c.encMessage(ms[i]).Some?
  }

  function PutMessages<M(!new), L(!new)>(c: Codec<M, L>, ms: seq<M>): seq<Byte>
    requires AllEncode(c, ms)
  {
    if ms == [] then [] else PutMessages(c, ms[..|ms| - 1]) + c.encMessage(ms[|ms| - 1]).value
  }

  function TakeMessages<M(!new), L(!new)>(c: Codec<M, L>, n: nat, data: seq<Byte>): (r: Option<(seq<M>, seq<Byte>)>)
    requires Local(c)
    ensures r.Some? ==> |r.value.1| <= |data|
  {
    if n == 0 then Some(([], data))
    else
      var front :- TakeMessages(c, n - 1, data);
      assert LocalAt(c.decMessage, front.1, []);
      var r :- c.decMessage(front.1);
      Some((front.0 + [r.0], r.1))
  }

  lemma {:induction false} MessagesRead<M(!new), L(!new)>(c: Codec<M, L>, ms: seq<M>, rest: seq<Byte>)
    requires Sound(c) && Local(c) && AllEncode(c, ms)
    ensures TakeMessages(c, |ms|, PutMessages(c, ms) + rest) == Some((ms, rest))
    decreases |ms|
  {
    if ms == [] {
      assert PutMessages(c, ms) + rest == rest;
    } else {
      var front, last := ms[..|ms| - 1], ms[|ms| - 1];
      MessagesRead(c, front, c.encMessage(last).value + rest);
      assert PutMessages(c, ms) + rest == PutMessages(c, front) + (c.encMessage(last).value + rest);
      assert ms == front + [last];
    }
  }

  // ---- The whole packet ----

  const SIGNATURE_FLAG: nat := 11

  function Flag<M(!new), L(!new)>(f: Fields<M, L>, signed: bool, i: int): bool {
    if i == 0 then f.from.Some? else if i == 1 then f.fromShort.Some?
    else if i == 2 then |f.messages| <= 1 else if i == 3 then |f.messages| > 1
    else if i == 4 then f.address.Some? else if i == 5 then f.priorityAddress.Some?
    else if i == 6 then f.seqno.Some? else if i == 7 then f.confirmSeqno.Some?
    else if i == 8 then f.recvAddrVersion.Some? else if i == 9 then f.recvPriorityAddrVersion.Some?
    else if i == 10 then f.reinitDate.Some? else i == SIGNATURE_FLAG && signed
  }

  function Flags<M(!new), L(!new)>(f: Fields<M, L>, signed: bool): (r: Bits.Bits)
    ensures |r| == 32
  {
    seq(32, i => Flag(f, signed, i))
  }

  /** What serialization checks as it goes. */
  ghost predicate Encodable<M(!new), L(!new)>(c: Codec<M, L>, f: Fields<M, L>) {
    && (f.from.Some? ==> |f.from.value| == KEY_SIZE)
    && f.messages != [] && AllEncode(c, f.messages)
    && (f.address.Some? ==> c.encList(f.address.value).Some?)
    && (f.priorityAddress.Some? ==> c.encList(f.priorityAddress.value).Some?)
    && (f.reinitDate.Some? ==> f.dstReinitDate.Some?)
  }

  function PutAllMessages<M(!new), L(!new)>(c: Codec<M, L>, ms: seq<M>): seq<Byte>
    requires AllEncode(c, ms)
  {
    (if |ms| > 1 then Le(|ms|, 4) else []) + PutMessages(c, ms)
  }

  function PutCounters<M(!new), L(!new)>(f: Fields<M, L>): seq<Byte> {
    PutUint(f.seqno, 8) + (PutUint(f.confirmSeqno, 8) + (PutUint(f.recvAddrVersion, 4) + PutUint(f.recvPriorityAddrVersion, 4)))
  }

  function PutReinit<M(!new), L(!new)>(f: Fields<M, L>): seq<Byte>
    requires f.reinitDate.Some? ==> f.dstReinitDate.Some?
  {
    if f.reinitDate.Some? then Le(f.reinitDate.value, 4) + Le(f.dstReinitDate.value, 4) else []
  }

  function PutFields<M(!new), L(!new)>(c: Codec<M, L>, f: Fields<M, L>): seq<Byte>
    requires Encodable(c, f)
  {
    PutKey(c.keyId, f.from) + (PutShort(f.fromShort) + (PutAllMessages(c, f.messages) +
    (PutList(c, f.address) + (PutList(c, f.priorityAddress) + (PutCounters(f) + PutReinit(f))))))
  }

  /** The packet on the wire. */
  function Bytes<M(!new), L(!new)>(c: Codec<M, L>, p: Packet<M, L>): seq<Byte>
    requires Encodable(c, p.fields)
  {
    Start(c, p.rand1) + (Le(Bits.Value(Flags(p.fields, p.signature.Some?)), 4) +
    (PutFields(c, p.fields) + (PutBytes(p.signature) + Wire(p.rand2))))
  }

  function Start<M(!new), L(!new)>(c: Codec<M, L>, rand1: seq<Byte>): seq<Byte> {
    Le(c.packetId, 4) + Wire(rand1)
  }

  function TakeAllMessages<M(!new), L(!new)>(c: Codec<M, L>, one: bool, many: bool, data: seq<Byte>): (r: Option<(seq<M>, seq<Byte>)>)
    requires Local(c)
    ensures r.Some? ==> |r.value.1| <= |data|
  {
    var r :- TakeMessages(c, if one then 1 else 0, data);
    if !many then Some(r)
    else if |r.1| < 4 then None
    else
      var s :- TakeMessages(c, FromLe(r.1[..4]), r.1[4..]);
      Some((r.0 + s.0, s.1))
  }

  datatype Counters = Counters(seqno: Option<nat>, confirmSeqno: Option<nat>, recvAddr: Option<nat>, recvPriorityAddr: Option<nat>)

  function TakeCounters(flags: Bits.Bits, data: seq<Byte>): Option<(Counters, seq<Byte>)>
    requires |flags| == 32
  {
    var seqno :- TakeUint(flags[6], 8, data);
    var confirm :- TakeUint(flags[7], 8, seqno.1);
    var recv :- TakeUint(flags[8], 4, confirm.1);
    var priority :- TakeUint(flags[9], 4, recv.1);
    Some((Counters(seqno.0, confirm.0, recv.0, priority.0), priority.1))
  }

  function TakeReinit(on: bool, data: seq<Byte>): Option<((Option<nat>, Option<nat>), seq<Byte>)> {
    if !on then Some(((None, None), data))
    else if |data| < 8 then None
    else Some(((Some(FromLe(data[..4])), Some(FromLe(data[4..8]))), data[8..]))
  }

  datatype Head<M> = Head(from: Option<seq<Byte>>, short: Option<seq<Byte>>, messages: seq<M>)

  function TakeHead<M(!new), L(!new)>(c: Codec<M, L>, flags: Bits.Bits, data: seq<Byte>): (r: Option<(Head<M>, seq<Byte>)>)
    requires |flags| == 32 && Local(c)
    ensures r.Some? ==> |r.value.1| <= |data|
  {
    var from :- TakeKey(c.keyId, flags[0], data);
    var short :- TakeShort(flags[1], from.1);
    var messages :- TakeAllMessages(c, flags[2], flags[3], short.1);
    Some((Head(from.0, short.0, messages.0), messages.1))
  }

  function TakeLists<M(!new), L(!new)>(c: Codec<M, L>, flags: Bits.Bits, data: seq<Byte>)
    : (r: Option<((Option<L>, Option<L>), seq<Byte>)>)
    requires |flags| == 32 && Local(c)
    ensures r.Some? ==> |r.value.1| <= |data|
  {
    var address :- TakeList(c, flags[4], data);
    var priority :- TakeList(c, flags[5], address.1);
    Some(((address.0, priority.0), priority.1))
  }

  function TakeFields<M(!new), L(!new)>(c: Codec<M, L>, flags: Bits.Bits, data: seq<Byte>): (r: Option<(Fields<M, L>, seq<Byte>)>)
    requires |flags| == 32 && Local(c)
    ensures r.Some? ==> |r.value.1| <= |data|
  {
    var head :- TakeHead(c, flags, data);
    var lists :- TakeLists(c, flags, head.1);
    var n :- TakeCounters(flags, lists.1);
    var reinit :- TakeReinit(flags[10], n.1);
    Some((Fields(head.0.from, head.0.short, head.0.messages, lists.0.0, lists.0.1, n.0.seqno, n.0.confirmSeqno, n.0.recvAddr,
                 n.0.recvPriorityAddr, reinit.0.0, reinit.0.1), reinit.1))
  }

  /** The packet's bytes without the signature and with its flag cleared. */
  function ToSign(data: seq<Byte>, flagsOffset: nat, flags: Bits.Bits, start: nat, end: nat): seq<Byte>
    requires |flags| == 32 && flagsOffset + 4 <= start <= end <= |data|
  {
    Over(data[..start] + data[end..], flagsOffset, Le(Bits.Value(flags[SIGNATURE_FLAG := false]), 4))
  }

  datatype Parsed<M, L> = Parsed(packet: Packet<M, L>, toSign: Option<seq<Byte>>)

  function ParseFlags<M(!new), L(!new)>(c: Codec<M, L>, data: seq<Byte>): (r: Option<(seq<Byte>, Bits.Bits, seq<Byte>)>)
    ensures r.Some? ==> |r.value.1| == 32 && |r.value.2| + 4 <= |data|
  {
    if |data| < 4 || FromLe(data[..4]) != c.packetId then None
    else
      var r :- FromBytes(data[4..]);
      if |r.1| < 4 then None else Some((r.0, Bits.OfNat(FromLe(r.1[..4]), 32), r.1[4..]))
  }

  /** What follows the flag word, and how many bytes were left before and behind the signature. */
  datatype Rest<M, L> = Rest(fields: Fields<M, L>, signature: Option<seq<Byte>>, rand2: seq<Byte>, before: nat, behind: nat)

  /** The signature and the last padding, with nothing behind it. */
  function ParseEnd<M(!new), L(!new)>(fields: Fields<M, L>, signed: bool, data: seq<Byte>): (r: Option<Rest<M, L>>)
    ensures r.Some? ==> r.value.behind <= r.value.before <= |data|
  {
    var signature :- TakeBytes(signed, data);
    var rand2 :- FromBytes(signature.1);
    if rand2.1 != [] then None
    else Some(Rest(fields, signature.0, rand2.0, |data|, |signature.1|))
  }

  function ParseRest<M(!new), L(!new)>(c: Codec<M, L>, flags: Bits.Bits, data: seq<Byte>): (r: Option<Rest<M, L>>)
    requires |flags| == 32 && Local(c)
    ensures r.Some? ==> r.value.behind <= r.value.before <= |data|
  {
    var fields :- TakeFields(c, flags, data);
    ParseEnd(fields.0, flags[SIGNATURE_FLAG], fields.1)
  }

  function Assemble<M(!new), L(!new)>(data: seq<Byte>, rand1: seq<Byte>, flags: Bits.Bits, left: nat, rest: Rest<M, L>): Parsed<M, L>
    requires |flags| == 32 && rest.behind <= rest.before <= left && left + 4 <= |data|
  {
    var packet := Packet(rand1, rest.fields, rest.signature, rest.rand2);
    if !flags[SIGNATURE_FLAG] then Parsed(packet, None)
    else Parsed(packet, Some(ToSign(data, |data| - left - 4, flags, |data| - rest.before, |data| - rest.behind)))
  }

  function Parse<M(!new), L(!new)>(c: Codec<M, L>, data: seq<Byte>): Option<Parsed<M, L>>
    requires Local(c)
  {
    var head :- ParseFlags(c, data);
    var rest :- ParseRest(c, head.1, head.2);
    Some(Assemble(data, head.0, head.1, |head.2|, rest))
  }

  // ---- Reading back what was written ----

  /** A short id is written as it is and 32 bytes of it are read; the destination date goes with the reinit date. */
  predicate Restorable<M(!new), L(!new)>(f: Fields<M, L>) {
    && (f.fromShort.Some? ==> |f.fromShort.value| == KEY_SIZE)
    && (f.dstReinitDate.Some? ==> f.reinitDate.Some?)
  }

  /** The sizes the wire format can hold. */
  ghost predicate FitsWire<M(!new), L(!new)>(p: Packet<M, L>) {
    var f := p.fields;
    && |p.rand1| < TWO32 && |p.rand2| < TWO32 && (p.signature.Some? ==> |p.signature.value| < TWO32)
    && |f.messages| < TWO32
    && (f.seqno.Some? ==> f.seqno.value < TWO64) && (f.confirmSeqno.Some? ==> f.confirmSeqno.value < TWO64)
    && (f.recvAddrVersion.Some? ==> f.recvAddrVersion.value < TWO32)
    && (f.recvPriorityAddrVersion.Some? ==> f.recvPriorityAddrVersion.value < TWO32)
    && (f.reinitDate.Some? ==> f.reinitDate.value < TWO32) && (f.dstReinitDate.Some? ==> f.dstReinitDate.value < TWO32)
  }

  ghost predicate WellFormed<M(!new), L(!new)>(p: Packet<M, L>) {
    FitsWire(p) && Restorable(p.fields)
  }

  lemma OneMessageReads<M(!new), L(!new)>(c: Codec<M, L>, ms: seq<M>, rest: seq<Byte>)
    requires Sound(c) && Local(c) && AllEncode(c, ms) && |ms| == 1
    ensures TakeAllMessages(c, true, false, PutAllMessages(c, ms) + rest) == Some((ms, rest))
  {
    MessagesRead(c, ms, rest);
    assert PutAllMessages(c, ms) == PutMessages(c, ms);
  }

  lemma ManyMessagesRead<M(!new), L(!new)>(c: Codec<M, L>, ms: seq<M>, rest: seq<Byte>)
    requires Sound(c) && Local(c) && AllEncode(c, ms) && 1 < |ms| < TWO32
    ensures TakeAllMessages(c, false, true, PutAllMessages(c, ms) + rest) == Some((ms, rest))
  {
    var data := PutAllMessages(c, ms) + rest;
    MessagesRead(c, ms, rest);
    CountReads(|ms|, PutMessages(c, ms), rest);
    assert TakeMessages(c, 0, data) == Some(([], data));
    assert [] + ms == ms;
  }

  lemma CountReads(n: nat, messages: seq<Byte>, rest: seq<Byte>)
    requires n < TWO32
    ensures var data := Le(n, 4) + messages + rest; FromLe(data[..4]) == n && data[4..] == messages + rest
  {
    PowersOf256();
    LeRoundTrip(n, 4);
    assert (Le(n, 4) + messages + rest)[..4] == Le(n, 4);
  }

  lemma Assoc(a: seq<Byte>, b: seq<Byte>, rest: seq<Byte>)
    ensures (a + b) + rest == a + (b + rest)
  {
  }

  /** The flag word says which fields are there. */
  ghost predicate Tells<M(!new), L(!new)>(flags: Bits.Bits, f: Fields<M, L>)
    requires |flags| == 32
  {
    && flags[0] == f.from.Some? && flags[1] == f.fromShort.Some?
    && flags[2] == (|f.messages| <= 1) && flags[3] == (|f.messages| > 1)
    && flags[4] == f.address.Some? && flags[5] == f.priorityAddress.Some?
    && flags[6] == f.seqno.Some? && flags[7] == f.confirmSeqno.Some?
    && flags[8] == f.recvAddrVersion.Some? && flags[9] == f.recvPriorityAddrVersion.Some?
    && flags[10] == f.reinitDate.Some?
  }

  lemma FlagsTell<M(!new), L(!new)>(f: Fields<M, L>, signed: bool)
    ensures Tells(Flags(f, signed), f) && Flags(f, signed)[SIGNATURE_FLAG] == signed
    ensures Flags(f, signed)[SIGNATURE_FLAG := false] == Flags(f, false)
  {
  }

  lemma HeadReads<M(!new), L(!new)>(c: Codec<M, L>, flags: Bits.Bits, p: Packet<M, L>, rest: seq<Byte>)
    requires Sound(c) && Local(c) && Encodable(c, p.fields) && WellFormed(p) && |flags| == 32 && Tells(flags, p.fields)
    ensures var f := p.fields;
            TakeHead(c, flags, PutKey(c.keyId, f.from) + (PutShort(f.fromShort) + (PutAllMessages(c, f.messages) + rest)))
            == Some((Head(f.from, f.fromShort, f.messages), rest))
  {
    var f := p.fields;
    var afterShort := PutAllMessages(c, f.messages) + rest;
    KeyReads(c.keyId, f.from, PutShort(f.fromShort) + afterShort);
    ShortReads(f.fromShort, afterShort);
    if |f.messages| == 1 {
      OneMessageReads(c, f.messages, rest);
    } else {
      ManyMessagesRead(c, f.messages, rest);
    }
  }

  lemma ListsRead<M(!new), L(!new)>(c: Codec<M, L>, flags: Bits.Bits, p: Packet<M, L>, rest: seq<Byte>)
    requires Sound(c) && Local(c) && Encodable(c, p.fields) && |flags| == 32 && Tells(flags, p.fields)
    ensures var f := p.fields;
            TakeLists(c, flags, PutList(c, f.address) + (PutList(c, f.priorityAddress) + rest))
            == Some(((f.address, f.priorityAddress), rest))
  {
    ListReads(c, p.fields.address, PutList(c, p.fields.priorityAddress) + rest);
    ListReads(c, p.fields.priorityAddress, rest);
  }

  lemma CountersRead<M(!new), L(!new)>(flags: Bits.Bits, p: Packet<M, L>, rest: seq<Byte>)
    requires WellFormed(p) && |flags| == 32 && Tells(flags, p.fields)
    ensures var f := p.fields;
            TakeCounters(flags, PutCounters(f) + rest)
            == Some((Counters(f.seqno, f.confirmSeqno, f.recvAddrVersion, f.recvPriorityAddrVersion), rest))
  {
    var f := p.fields;
    PowersOf256();
    var d3 := PutUint(f.recvPriorityAddrVersion, 4) + rest;
    var d2 := PutUint(f.recvAddrVersion, 4) + d3;
    var d1 := PutUint(f.confirmSeqno, 8) + d2;
    FourRegroup(PutUint(f.seqno, 8), PutUint(f.confirmSeqno, 8), PutUint(f.recvAddrVersion, 4),
                PutUint(f.recvPriorityAddrVersion, 4), rest);
    UintReads(f.seqno, 8, d1);
    UintReads(f.confirmSeqno, 8, d2);
    UintReads(f.recvAddrVersion, 4, d3);
    UintReads(f.recvPriorityAddrVersion, 4, rest);
  }

  lemma FourRegroup(a: seq<Byte>, b: seq<Byte>, d: seq<Byte>, e: seq<Byte>, rest: seq<Byte>)
    ensures (a + (b + (d + e))) + rest == a + (b + (d + (e + rest)))
  {
    Assoc(a, b + (d + e), rest);
    Assoc(b, d + e, rest);
    Assoc(d, e, rest);
  }

  lemma ReinitReads<M(!new), L(!new)>(p: Packet<M, L>, rest: seq<Byte>)
    requires WellFormed(p) && (p.fields.reinitDate.Some? ==> p.fields.dstReinitDate.Some?)
    ensures TakeReinit(p.fields.reinitDate.Some?, PutReinit(p.fields) + rest)
            == Some(((p.fields.reinitDate, p.fields.dstReinitDate), rest))
  {
    var f := p.fields;
    var data := PutReinit(f) + rest;
    if f.reinitDate.Some? {
      PowersOf256();
      LeRoundTrip(f.reinitDate.value, 4);
      LeRoundTrip(f.dstReinitDate.value, 4);
      assert data[..4] == Le(f.reinitDate.value, 4) && data[4..8] == Le(f.dstReinitDate.value, 4) && data[8..] == rest;
    } else {
      assert data == rest;
    }
  }

  lemma FieldsRead<M(!new), L(!new)>(c: Codec<M, L>, flags: Bits.Bits, p: Packet<M, L>, rest: seq<Byte>)
    requires Sound(c) && Local(c) && Encodable(c, p.fields) && WellFormed(p) && |flags| == 32 && Tells(flags, p.fields)
    ensures TakeFields(c, flags, PutFields(c, p.fields) + rest) == Some((p.fields, rest))
  {
    var f := p.fields;
    var d4 := PutReinit(f) + rest;
    var d3 := PutCounters(f) + d4;
    var d1 := PutList(c, f.address) + (PutList(c, f.priorityAddress) + d3);
    FieldsRegroup(PutKey(c.keyId, f.from), PutShort(f.fromShort), PutAllMessages(c, f.messages), PutList(c, f.address),
                  PutList(c, f.priorityAddress), PutCounters(f), PutReinit(f), rest);
    HeadReads(c, flags, p, d1);
    ListsRead(c, flags, p, d3);
    CountersRead(flags, p, d4);
    ReinitReads(p, rest);
  }

  lemma FieldsRegroup(a: seq<Byte>, b: seq<Byte>, d: seq<Byte>, e: seq<Byte>, f: seq<Byte>, g: seq<Byte>, h: seq<Byte>, rest: seq<Byte>)
    ensures (a + (b + (d + (e + (f + (g + h)))))) + rest == a + (b + (d + (e + (f + (g + (h + rest))))))
  {
    Assoc(a, b + (d + (e + (f + (g + h)))), rest);
    Assoc(b, d + (e + (f + (g + h))), rest);
    Assoc(d, e + (f + (g + h)), rest);
    Assoc(e, f + (g + h), rest);
    Assoc(f, g + h, rest);
    Assoc(g, h, rest);
  }

  lemma FlagsRead<M(!new), L(!new)>(c: Codec<M, L>, rand1: seq<Byte>, word: seq<Byte>, x: seq<Byte>)
    requires Sound(c) && |rand1| < TWO32 && |word| == 4
    ensures ParseFlags(c, Start(c, rand1) + (word + x)) == Some((rand1, Bits.OfNat(FromLe(word), 32), x))
  {
    var data := Start(c, rand1) + (word + x);
    IdReads(c.packetId, Wire(rand1), word + x);
    FromBytesInvertsEncode(rand1, word + x);
    assert (word + x)[..4] == word && (word + x)[4..] == x;
  }

  lemma IdReads(id: nat, a: seq<Byte>, b: seq<Byte>)
    requires id < TWO32
    ensures var data := (Le(id, 4) + a) + b; FromLe(data[..4]) == id && data[4..] == a + b
  {
    PowersOf256();
    LeRoundTrip(id, 4);
    assert ((Le(id, 4) + a) + b)[..4] == Le(id, 4);
  }

  lemma WordReads(flags: Bits.Bits)
    requires |flags| == 32
    ensures Bits.OfNat(FromLe(Le(Bits.Value(flags), 4)), 32) == flags
  {
    PowersOf256();
    Bits.OfNatValue(flags);
    WordsFit();
    LeRoundTrip(Bits.Value(flags), 4);
  }

  lemma WordsFit()
    ensures Pow2(32) == TWO32
  {
    assert Pow2(2) == 4;
    Pow2Double(2, 4);
    Pow2Double(4, 16);
    Pow2Double(8, 0x100);
    Pow2Double(16, 0x1_0000);
  }

  /** Cutting the signature out and clearing its flag, on a packet laid out as written. */
  lemma SignedPart(a: seq<Byte>, word: seq<Byte>, b: seq<Byte>, signature: seq<Byte>, r: seq<Byte>, flags: Bits.Bits)
    requires |flags| == 32 && |word| == 4
    ensures ToSign(a + (word + (b + (signature + r))), |a|, flags, |a| + 4 + |b|, |a| + 4 + |b| + |signature|)
            == a + (Le(Bits.Value(flags[SIGNATURE_FLAG := false]), 4) + (b + r))
  {
    var data := a + (word + (b + (signature + r)));
    var start, end := |a| + 4 + |b|, |a| + 4 + |b| + |signature|;
    assert data[..start] == a + (word + b);
    assert data[end..] == r;
  }

  lemma EndReads<M(!new), L(!new)>(fields: Fields<M, L>, signature: Option<seq<Byte>>, rand2: seq<Byte>)
    requires |rand2| < TWO32 && (signature.Some? ==> |signature.value| < TWO32)
    ensures ParseEnd(fields, signature.Some?, PutBytes(signature) + Wire(rand2)) ==
            Some(Rest(fields, signature, rand2, |PutBytes(signature) + Wire(rand2)|, |Wire(rand2)|))
  {
    BytesRead(signature, Wire(rand2));
    WholeReads(rand2);
    EndIs(fields, signature, rand2, PutBytes(signature) + Wire(rand2), Wire(rand2));
  }

  lemma WholeReads(data: seq<Byte>)
    requires |data| < TWO32
    ensures FromBytes(Wire(data)) == Some((data, []))
  {
    FromBytesInvertsEncode(data, []);
    assert Wire(data) + [] == Wire(data);
  }

  lemma EndIs<M(!new), L(!new)>(fields: Fields<M, L>, signature: Option<seq<Byte>>, rand2: seq<Byte>, data: seq<Byte>, r: seq<Byte>)
    requires TakeBytes(signature.Some?, data) == Some((signature, r)) && FromBytes(r) == Some((rand2, []))
    ensures ParseEnd(fields, signature.Some?, data) == Some(Rest(fields, signature, rand2, |data|, |r|))
  {
  }

  lemma RestReads<M(!new), L(!new)>(c: Codec<M, L>, flags: Bits.Bits, p: Packet<M, L>, data: seq<Byte>, end: seq<Byte>)
    requires Local(c) && |flags| == 32 && flags[SIGNATURE_FLAG] == p.signature.Some?
    requires TakeFields(c, flags, data) == Some((p.fields, end)) && end == PutBytes(p.signature) + Wire(p.rand2)
    requires |p.rand2| < TWO32 && (p.signature.Some? ==> |p.signature.value| < TWO32)
    ensures ParseRest(c, flags, data) == Some(Rest(p.fields, p.signature, p.rand2, |end|, |Wire(p.rand2)|))
  {
    EndReads(p.fields, p.signature, p.rand2);
  }

  lemma RestWritten<M(!new), L(!new)>(c: Codec<M, L>, flags: Bits.Bits, p: Packet<M, L>, end: seq<Byte>)
    requires Sound(c) && Local(c) && Encodable(c, p.fields) && WellFormed(p)
    requires |flags| == 32 && Tells(flags, p.fields) && flags[SIGNATURE_FLAG] == p.signature.Some?
    requires end == PutBytes(p.signature) + Wire(p.rand2)
    ensures ParseRest(c, flags, PutFields(c, p.fields) + end) == Some(Rest(p.fields, p.signature, p.rand2, |end|, |Wire(p.rand2)|))
  {
    FieldsRead(c, flags, p, end);
    RestReads(c, flags, p, PutFields(c, p.fields) + end, end);
  }

  /** A packet laid out as written, assembled again. */
  lemma Assembled<M(!new), L(!new)>(a: seq<Byte>, word: seq<Byte>, b: seq<Byte>, p: Packet<M, L>, flags: Bits.Bits, clear: seq<Byte>)
    requires |flags| == 32 && |word| == 4 && flags[SIGNATURE_FLAG] == p.signature.Some?
    requires clear == Le(Bits.Value(flags[SIGNATURE_FLAG := false]), 4)
    ensures var s, r := PutBytes(p.signature), Wire(p.rand2);
            Assemble(a + (word + (b + (s + r))), p.rand1, flags, |b + (s + r)|, Rest(p.fields, p.signature, p.rand2, |s| + |r|, |r|)) ==
            Parsed(p, if p.signature.Some? then Some(a + (clear + (b + r))) else None)
  {
    SignedPart(a, word, b, PutBytes(p.signature), Wire(p.rand2), flags);
  }

  lemma ParseIs<M(!new), L(!new)>(c: Codec<M, L>, data: seq<Byte>, rand1: seq<Byte>, flags: Bits.Bits, d: seq<Byte>, rest: Rest<M, L>)
    requires Local(c) && |flags| == 32 && |d| + 4 <= |data|
    requires ParseFlags(c, data) == Some((rand1, flags, d)) && ParseRest(c, flags, d) == Some(rest)
    ensures Parse(c, data) == Some(Assemble(data, rand1, flags, |d|, rest))
  {
  }

  lemma FlagsWritten<M(!new), L(!new)>(c: Codec<M, L>, rand1: seq<Byte>, flags: Bits.Bits, x: seq<Byte>)
    requires Sound(c) && |rand1| < TWO32 && |flags| == 32
    ensures ParseFlags(c, Start(c, rand1) + (Le(Bits.Value(flags), 4) + x)) == Some((rand1, flags, x))
  {
    FlagsRead(c, rand1, Le(Bits.Value(flags), 4), x);
    WordReads(flags);
  }

  lemma ParseThen<M(!new), L(!new)>(c: Codec<M, L>, data: seq<Byte>, rand1: seq<Byte>, flags: Bits.Bits, d: seq<Byte>, rest: Rest<M, L>,
                                    parsed: Parsed<M, L>)
    requires Local(c) && |flags| == 32 && |d| + 4 <= |data|
    requires ParseFlags(c, data) == Some((rand1, flags, d)) && ParseRest(c, flags, d) == Some(rest)
    requires Assemble(data, rand1, flags, |d|, rest) == parsed
    ensures Parse(c, data) == Some(parsed)
  {
    ParseIs(c, data, rand1, flags, d, rest);
  }

  /** What the steps of parsing give on a packet laid out as written. */
  lemma StepsOnWritten<M(!new), L(!new)>(c: Codec<M, L>, p: Packet<M, L>, flags: Bits.Bits, d: seq<Byte>, data: seq<Byte>)
    requires Sound(c) && Local(c) && Encodable(c, p.fields) && WellFormed(p) && flags == Flags(p.fields, p.signature.Some?)
    requires d == PutFields(c, p.fields) + (PutBytes(p.signature) + Wire(p.rand2))
    requires data == Start(c, p.rand1) + (Le(Bits.Value(flags), 4) + d)
    ensures ParseFlags(c, data) == Some((p.rand1, flags, d))
    ensures ParseRest(c, flags, d) ==
            Some(Rest(p.fields, p.signature, p.rand2, |PutBytes(p.signature) + Wire(p.rand2)|, |Wire(p.rand2)|))
  {
    FlagsTell(p.fields, p.signature.Some?);
    FlagsWritten(c, p.rand1, flags, d);
    RestWritten(c, flags, p, PutBytes(p.signature) + Wire(p.rand2));
  }

  lemma WrittenAssembles<M(!new), L(!new)>(c: Codec<M, L>, p: Packet<M, L>, flags: Bits.Bits, d: seq<Byte>, data: seq<Byte>)
    requires Encodable(c, p.fields) && flags == Flags(p.fields, p.signature.Some?)
    requires d == PutFields(c, p.fields) + (PutBytes(p.signature) + Wire(p.rand2))
    requires data == Start(c, p.rand1) + (Le(Bits.Value(flags), 4) + d)
    ensures Assemble(data, p.rand1, flags, |d|, Rest(p.fields, p.signature, p.rand2, |PutBytes(p.signature) + Wire(p.rand2)|, |Wire(p.rand2)|)) ==
            Parsed(p, if p.signature.Some? then Some(Bytes(c, p.(signature := None))) else None)
  {
    FlagsTell(p.fields, p.signature.Some?);
    var clear := Le(Bits.Value(flags[SIGNATURE_FLAG := false]), 4);
    UnsignedBytes(c, p, clear);
    Assembled(Start(c, p.rand1), Le(Bits.Value(flags), 4), PutFields(c, p.fields), p, flags, clear);
  }

  lemma UnsignedBytes<M(!new), L(!new)>(c: Codec<M, L>, p: Packet<M, L>, clear: seq<Byte>)
    requires Encodable(c, p.fields) && clear == Le(Bits.Value(Flags(p.fields, false)), 4)
    ensures Bytes(c, p.(signature := None)) == Start(c, p.rand1) + (clear + (PutFields(c, p.fields) + Wire(p.rand2)))
  {
    assert [] + Wire(p.rand2) == Wire(p.rand2);
  }

  /** Parsing inverts serialization, and what the signature is checked against is the packet without it. */
  lemma ParseInverts<M(!new), L(!new)>(c: Codec<M, L>, p: Packet<M, L>)
    requires Sound(c) && Local(c) && Encodable(c, p.fields) && WellFormed(p)
    ensures Parse(c, Bytes(c, p)) ==
            Some(Parsed(p, if p.signature.Some? then Some(Bytes(c, p.(signature := None))) else None))
  {
    var flags := Flags(p.fields, p.signature.Some?);
    var d := PutFields(c, p.fields) + (PutBytes(p.signature) + Wire(p.rand2));
    var data := Start(c, p.rand1) + (Le(Bits.Value(flags), 4) + d);
    StepsOnWritten(c, p, flags, d, data);
    WrittenAssembles(c, p, flags, d, data);
    ParseThen(c, data, p.rand1, flags, d, Rest(p.fields, p.signature, p.rand2, |PutBytes(p.signature) + Wire(p.rand2)|, |Wire(p.rand2)|),
              Parsed(p, if p.signature.Some? then Some(Bytes(c, p.(signature := None))) else None));
  }

  lemma FieldsAreRestorable<M(!new), L(!new)>(c: Codec<M, L>, flags: Bits.Bits, data: seq<Byte>)
    requires |flags| == 32 && Local(c) && TakeFields(c, flags, data).Some?
    ensures Restorable(TakeFields(c, flags, data).value.0)
  {
  }

  /** Every packet that was read is one that can be restored. */
  lemma ParsedIsRestorable<M(!new), L(!new)>(c: Codec<M, L>, data: seq<Byte>)
    requires Local(c) && Parse(c, data).Some?
    ensures Restorable(Parse(c, data).value.packet.fields)
  {
    hide ParseFlags, TakeFields, ToSign, Local, Restorable;
    var head := ParseFlags(c, data).value;
    FieldsAreRestorable(c, head.1, head.2);
  }

  /** A packet comes back exactly when its short id has 32 bytes and its destination date stands beside a reinit date. */
  lemma RoundTripIff<M(!new), L(!new)>(c: Codec<M, L>, p: Packet<M, L>)
    requires Sound(c) && Local(c) && Encodable(c, p.fields) && FitsWire(p)
    ensures (Parse(c, Bytes(c, p)).Some? && Parse(c, Bytes(c, p)).value.packet == p) <==> Restorable(p.fields)
  {
    hide Parse, Bytes, Restorable, FitsWire, Local, Sound;
    if Restorable(p.fields) {
      ParseInverts(c, p);
    }
    if Parse(c, Bytes(c, p)).Some? {
      ParsedIsRestorable(c, Bytes(c, p));
    }
  }
}
