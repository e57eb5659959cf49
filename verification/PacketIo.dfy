/** Packets read and written step by step (adnl/packet.go, adnl/channel.go). */
module PacketIo {
  import opened Options
  import opened TlBytes
  import opened TlBuffer
  import opened Packets
  import opened Powers
  import Bits

  // ---- What the signature covers, for every accepted datagram ----

  lemma Join(data: seq<Byte>, mid: seq<Byte>, rest: seq<Byte>, other: seq<Byte>)
    requires IsSuffix(mid, data) && IsSuffix(rest, mid)
    ensures IsSuffix(rest, data) && Used(data, rest) + other == Used(data, mid) + (Used(mid, rest) + other)
  {
  }

  lemma KeyLocal(keyId: nat, on: bool, data: seq<Byte>, other: seq<Byte>)
    requires TakeKey(keyId, on, data).Some?
    ensures var r := TakeKey(keyId, on, data).value;
            IsSuffix(r.1, data) && TakeKey(keyId, on, Used(data, r.1) + other) == Some((r.0, other))
  {
    var r := TakeKey(keyId, on, data).value;
    var again := Used(data, r.1) + other;
    if on {
      assert again[..4] == data[..4] && again[4..4 + KEY_SIZE] == data[4..4 + KEY_SIZE] && again[4 + KEY_SIZE..] == other;
    } else {
      assert again == other;
    }
  }

  lemma ShortLocal(on: bool, data: seq<Byte>, other: seq<Byte>)
    requires TakeShort(on, data).Some?
    ensures var r := TakeShort(on, data).value;
            IsSuffix(r.1, data) && TakeShort(on, Used(data, r.1) + other) == Some((r.0, other))
  {
    var r := TakeShort(on, data).value;
    var again := Used(data, r.1) + other;
    if on {
      assert again[..KEY_SIZE] == data[..KEY_SIZE] && again[KEY_SIZE..] == other;
    } else {
      assert again == other;
    }
  }

  lemma UintLocal(on: bool, w: nat, data: seq<Byte>, other: seq<Byte>)
    requires TakeUint(on, w, data).Some?
    ensures var r := TakeUint(on, w, data).value;
            IsSuffix(r.1, data) && TakeUint(on, w, Used(data, r.1) + other) == Some((r.0, other))
  {
    var r := TakeUint(on, w, data).value;
    var again := Used(data, r.1) + other;
    if on {
      assert again[..w] == data[..w] && again[w..] == other;
    } else {
      assert again == other;
    }
  }

  lemma ReinitLocal(on: bool, data: seq<Byte>, other: seq<Byte>)
    requires TakeReinit(on, data).Some?
    ensures var r := TakeReinit(on, data).value;
            IsSuffix(r.1, data) && TakeReinit(on, Used(data, r.1) + other) == Some((r.0, other))
  {
    var r := TakeReinit(on, data).value;
    var again := Used(data, r.1) + other;
    if on {
      assert again[..4] == data[..4] && again[4..8] == data[4..8] && again[8..] == other;
    } else {
      assert again == other;
    }
  }

  lemma FromBytesLocal(data: seq<Byte>, other: seq<Byte>)
    requires FromBytes(data).Some?
    ensures var r := FromBytes(data).value;
            IsSuffix(r.1, data) && FromBytes(Used(data, r.1) + other) == Some((r.0, other))
  {
    var r := FromBytes(data).value;
    var again := Used(data, r.1) + other;
    assert again[..4] == data[..4];
    assert again[0] == data[0];
    if data[0] == 0xFE {
      assert again[1..4] == data[1..4];
      TakeLocal(data, 4, FromLe(data[1..4]), other);
    } else if data[0] == 0xFF {
      assert |data| - |r.1| >= 8;
      assert again[..8] == data[..8];
      assert again[5] == data[5] && again[6] == data[6] && again[7] == data[7];
      assert again[1..5] == data[1..5];
      TakeLocal(data, 8, FromLe(data[1..5]), other);
    } else {
      TakeLocal(data, 1, data[0], other);
    }
  }

  lemma TakeLocal(data: seq<Byte>, offset: nat, len: nat, other: seq<Byte>)
    requires Take(data, offset, len).Some?
    ensures var r := Take(data, offset, len).value;
            |r.1| <= |data| && Take(Used(data, r.1) + other, offset, len) == Some((r.0, other))
  {
    var r := Take(data, offset, len).value;
    var again := Used(data, r.1) + other;
    assert again[offset..offset + len] == data[offset..offset + len];
    assert again[offset + len + Padding(offset + len)..] == other;
  }

  lemma DecLocal<T(!new)>(dec: seq<Byte> -> Option<(T, seq<Byte>)>, data: seq<Byte>, other: seq<Byte>)
    requires ReadsAhead(dec) && dec(data).Some?
    ensures IsSuffix(dec(data).value.1, data)
    ensures dec(Used(data, dec(data).value.1) + other) == Some((dec(data).value.0, other))
  {
    assert LocalAt(dec, data, other);
  }

  lemma ListLocal<M(!new), L(!new)>(c: Codec<M, L>, on: bool, data: seq<Byte>, other: seq<Byte>)
    requires Local(c) && TakeList(c, on, data).Some?
    ensures var r := TakeList(c, on, data).value;
            IsSuffix(r.1, data) && TakeList(c, on, Used(data, r.1) + other) == Some((r.0, other))
  {
    if on {
      DecLocal(c.decList, data, other);
    } else {
      assert Used(data, data) + other == other;
    }
  }

  lemma {:induction false} MessagesLocal<M(!new), L(!new)>(c: Codec<M, L>, n: nat, data: seq<Byte>, other: seq<Byte>)
    requires Local(c) && TakeMessages(c, n, data).Some?
    ensures var r := TakeMessages(c, n, data).value;
            IsSuffix(r.1, data) && TakeMessages(c, n, Used(data, r.1) + other) == Some((r.0, other))
  {
    if n == 0 {
      assert Used(data, data) + other == other;
    } else {
      var mid := TakeMessages(c, n - 1, data).value;
      DecLocal(c.decMessage, mid.1, other);
      var rest := c.decMessage(mid.1).value.1;
      MessagesLocal(c, n - 1, data, Used(mid.1, rest) + other);
      Join(data, mid.1, rest, other);
    }
  }

  lemma Skip4(mid: seq<Byte>, rest: seq<Byte>, other: seq<Byte>)
    requires |mid| >= 4 && IsSuffix(rest, mid[4..])
    ensures IsSuffix(rest, mid)
    ensures var again := Used(mid, rest) + other;
            |again| >= 4 && again[..4] == mid[..4] && again[4..] == Used(mid[4..], rest) + other
  {
  }

  lemma AllMessagesLocal<M(!new), L(!new)>(c: Codec<M, L>, one: bool, many: bool, data: seq<Byte>, other: seq<Byte>)
    requires Local(c) && TakeAllMessages(c, one, many, data).Some?
    ensures var r := TakeAllMessages(c, one, many, data).value;
            IsSuffix(r.1, data) && TakeAllMessages(c, one, many, Used(data, r.1) + other) == Some((r.0, other))
  {
    var n := if one then 1 else 0;
    var mid := TakeMessages(c, n, data).value.1;
    if many {
      var count := FromLe(mid[..4]);
      var rest := TakeMessages(c, count, mid[4..]).value.1;
      MessagesLocal(c, count, mid[4..], other);
      Skip4(mid, rest, other);
      MessagesLocal(c, n, data, Used(mid, rest) + other);
      Join(data, mid, rest, other);
    } else {
      MessagesLocal(c, n, data, other);
    }
  }

  lemma HeadLocal<M(!new), L(!new)>(c: Codec<M, L>, flags: Bits.Bits, data: seq<Byte>, other: seq<Byte>)
    requires Local(c) && |flags| == 32 && TakeHead(c, flags, data).Some?
    ensures var r := TakeHead(c, flags, data).value;
            IsSuffix(r.1, data) && TakeHead(c, flags, Used(data, r.1) + other) == Some((r.0, other))
  {
    var d1 := TakeKey(c.keyId, flags[0], data).value.1;
    var d2 := TakeShort(flags[1], d1).value.1;
    var d3 := TakeAllMessages(c, flags[2], flags[3], d2).value.1;
    var o2 := Used(d2, d3) + other;
    var o1 := Used(d1, d2) + o2;
    AllMessagesLocal(c, flags[2], flags[3], d2, other);
    ShortLocal(flags[1], d1, o2);
    KeyLocal(c.keyId, flags[0], data, o1);
    Join(d1, d2, d3, other);
    Join(data, d1, d3, other);
  }

  lemma ListsLocal<M(!new), L(!new)>(c: Codec<M, L>, flags: Bits.Bits, data: seq<Byte>, other: seq<Byte>)
    requires Local(c) && |flags| == 32 && TakeLists(c, flags, data).Some?
    ensures var r := TakeLists(c, flags, data).value;
            IsSuffix(r.1, data) && TakeLists(c, flags, Used(data, r.1) + other) == Some((r.0, other))
  {
    var d1 := TakeList(c, flags[4], data).value.1;
    var d2 := TakeList(c, flags[5], d1).value.1;
    ListLocal(c, flags[5], d1, other);
    ListLocal(c, flags[4], data, Used(d1, d2) + other);
    Join(data, d1, d2, other);
  }

  lemma CountersLocal(flags: Bits.Bits, data: seq<Byte>, other: seq<Byte>)
    requires |flags| == 32 && TakeCounters(flags, data).Some?
    ensures var r := TakeCounters(flags, data).value;
            IsSuffix(r.1, data) && TakeCounters(flags, Used(data, r.1) + other) == Some((r.0, other))
  {
    var d1 := TakeUint(flags[6], 8, data).value.1;
    var d2 := TakeUint(flags[7], 8, d1).value.1;
    var d3 := TakeUint(flags[8], 4, d2).value.1;
    var d4 := TakeUint(flags[9], 4, d3).value.1;
    var o3 := Used(d3, d4) + other;
    var o2 := Used(d2, d3) + o3;
    UintLocal(flags[9], 4, d3, other);
    UintLocal(flags[8], 4, d2, o3);
    UintLocal(flags[7], 8, d1, o2);
    UintLocal(flags[6], 8, data, Used(d1, d2) + o2);
    Join(d2, d3, d4, other);
    Join(d1, d2, d4, other);
    Join(data, d1, d4, other);
  }

  lemma FieldsLocal<M(!new), L(!new)>(c: Codec<M, L>, flags: Bits.Bits, data: seq<Byte>, other: seq<Byte>)
    requires Local(c) && |flags| == 32 && TakeFields(c, flags, data).Some?
    ensures var r := TakeFields(c, flags, data).value;
            IsSuffix(r.1, data) && TakeFields(c, flags, Used(data, r.1) + other) == Some((r.0, other))
  {
    var d1 := TakeHead(c, flags, data).value.1;
    var d2 := TakeLists(c, flags, d1).value.1;
    var d3 := TakeCounters(flags, d2).value.1;
    var d4 := TakeReinit(flags[10], d3).value.1;
    var o3 := Used(d3, d4) + other;
    var o2 := Used(d2, d3) + o3;
    ReinitLocal(flags[10], d3, other);
    CountersLocal(flags, d2, o3);
    ListsLocal(c, flags, d1, o2);
    HeadLocal(c, flags, data, Used(d1, d2) + o2);
    Join(d2, d3, d4, other);
    Join(d1, d2, d4, other);
    Join(data, d1, d4, other);
  }

  lemma BehindTheId(data: seq<Byte>, r: seq<Byte>, x: seq<Byte>)
    requires |data| >= 4 && IsSuffix(r, data[4..])
    ensures var again := data[..|data| - |r|] + x;
            |again| >= 4 && again[..4] == data[..4] && again[4..] == Used(data[4..], r) + x
    ensures |r| >= 4 ==> IsSuffix(r[4..], data)
  {
  }

  lemma FlagsLocal<M(!new), L(!new)>(c: Codec<M, L>, data: seq<Byte>, word: seq<Byte>, other: seq<Byte>)
    requires ParseFlags(c, data).Some? && |word| == 4
    ensures var r := ParseFlags(c, data).value;
            && IsSuffix(r.2, data)
            && ParseFlags(c, data[..|data| - |r.2| - 4] + (word + other)) == Some((r.0, Bits.OfNat(FromLe(word), 32), other))
  {
    hide FromBytes;
    var rand1, rest := FromBytes(data[4..]).value.0, FromBytes(data[4..]).value.1;
    FromBytesLocal(data[4..], word + other);
    BehindTheId(data, rest, word + other);
    Word4(word, other);
    FlagsAre(c, data[..|data| - |rest|] + (word + other), rand1, word + other);
  }

  lemma FlagsAre<M(!new), L(!new)>(c: Codec<M, L>, data: seq<Byte>, rand1: seq<Byte>, rest: seq<Byte>)
    requires |data| >= 4 && FromLe(data[..4]) == c.packetId && FromBytes(data[4..]) == Some((rand1, rest)) && |rest| >= 4
    ensures ParseFlags(c, data) == Some((rand1, Bits.OfNat(FromLe(rest[..4]), 32), rest[4..]))
  {
  }

  lemma Word4(word: seq<Byte>, other: seq<Byte>)
    requires |word| == 4
    ensures (word + other)[..4] == word && (word + other)[4..] == other
  {
  }

  /** The field section does not look at the signature flag. */
  lemma FieldsIgnoreSignature<M(!new), L(!new)>(c: Codec<M, L>, flags: Bits.Bits, data: seq<Byte>)
    requires Local(c) && |flags| == 32
    ensures TakeFields(c, flags[SIGNATURE_FLAG := false], data) == TakeFields(c, flags, data)
  {
    var clear := flags[SIGNATURE_FLAG := false];
    HeadIgnores(c, flags, clear, data);
    var head := TakeHead(c, flags, data);
    if head.Some? {
      ListsIgnore(c, flags, clear, head.value.1);
      var lists := TakeLists(c, flags, head.value.1);
      if lists.Some? {
        CountersIgnore(flags, clear, lists.value.1);
      }
    }
  }

  lemma HeadIgnores<M(!new), L(!new)>(c: Codec<M, L>, flags: Bits.Bits, clear: Bits.Bits, data: seq<Byte>)
    requires Local(c) && |flags| == |clear| == 32 && forall i :: 0 <= i < 4 ==> clear[i] == flags[i]
    ensures TakeHead(c, clear, data) == TakeHead(c, flags, data)
  {
  }

  lemma ListsIgnore<M(!new), L(!new)>(c: Codec<M, L>, flags: Bits.Bits, clear: Bits.Bits, data: seq<Byte>)
    requires Local(c) && |flags| == |clear| == 32 && forall i :: 4 <= i < 6 ==> clear[i] == flags[i]
    ensures TakeLists(c, clear, data) == TakeLists(c, flags, data)
  {
  }

  lemma CountersIgnore(flags: Bits.Bits, clear: Bits.Bits, data: seq<Byte>)
    requires |flags| == |clear| == 32 && forall i :: 6 <= i < 10 ==> clear[i] == flags[i]
    ensures TakeCounters(clear, data) == TakeCounters(flags, data)
  {
  }

  /** `d` without what lies between its last `before` and its last `behind` bytes. */
  function Cut(d: seq<Byte>, before: nat, behind: nat): seq<Byte>
    requires behind <= before <= |d|
  {
    d[..|d| - before] + d[|d| - behind..]
  }

  /** The field section and the end of an accepted signed packet, read again without the signature. */
  lemma CoveredFields<M(!new), L(!new)>(c: Codec<M, L>, flags: Bits.Bits, data: seq<Byte>)
    requires Local(c) && |flags| == 32 && flags[SIGNATURE_FLAG] && ParseRest(c, flags, data).Some?
    ensures var r := ParseRest(c, flags, data).value;
            ParseRest(c, flags[SIGNATURE_FLAG := false], Cut(data, r.before, r.behind)) ==
            Some(Rest(r.fields, None, r.rand2, r.behind, r.behind))
  {
    var fields := TakeFields(c, flags, data).value;
    var behind := TakeBytes(true, fields.1).value.1;
    FieldsLocal(c, flags, data, behind);
    FieldsIgnoreSignature(c, flags, Used(data, fields.1) + behind);
    FromBytesLocal(fields.1, []);
    assert Cut(data, |fields.1|, |behind|) == Used(data, fields.1) + behind;
  }

  /** For every accepted datagram with a signature, the bytes the signature is checked against are the same packet without it:
      first its padding and flag word, with `CoveredFields` the rest. */
  lemma CoveredFlags<M(!new), L(!new)>(c: Codec<M, L>, data: seq<Byte>, rand1: seq<Byte>, flags: Bits.Bits, d: seq<Byte>, before: nat, behind: nat)
    requires |flags| == 32 && |d| + 4 <= |data| && ParseFlags(c, data) == Some((rand1, flags, d)) && behind <= before <= |d|
    ensures ParseFlags(c, ToSign(data, |data| - |d| - 4, flags, |data| - before, |data| - behind)) ==
            Some((rand1, flags[SIGNATURE_FLAG := false], Cut(d, before, behind)))
  {
    var clear := flags[SIGNATURE_FLAG := false];
    FlagsLocal(c, data, Le(Bits.Value(clear), 4), Cut(d, before, behind));
    WordReads(clear);
    CutOut(data, d, before, behind, flags);
  }

  lemma CutOut(data: seq<Byte>, d: seq<Byte>, before: nat, behind: nat, flags: Bits.Bits)
    requires |flags| == 32 && IsSuffix(d, data) && behind <= before <= |d| && |d| + 4 <= |data|
    ensures ToSign(data, |data| - |d| - 4, flags, |data| - before, |data| - behind) ==
            data[..|data| - |d| - 4] + (Le(Bits.Value(flags[SIGNATURE_FLAG := false]), 4) + Cut(d, before, behind))
  {
    var at := |data| - |d| - 4;
    var cut := data[..|data| - before] + data[|data| - behind..];
    assert cut[..at] == data[..at];
    assert cut[at + 4..] == Cut(d, before, behind);
  }

  lemma UnsignedParse<M(!new), L(!new)>(c: Codec<M, L>, data: seq<Byte>, rand1: seq<Byte>, flags: Bits.Bits, d: seq<Byte>, rest: Rest<M, L>)
    requires Local(c) && |flags| == 32 && !flags[SIGNATURE_FLAG]
    requires ParseFlags(c, data) == Some((rand1, flags, d)) && ParseRest(c, flags, d) == Some(rest)
    ensures Parse(c, data) == Some(Parsed(Packet(rand1, rest.fields, rest.signature, rest.rand2), None))
  {
    hide ParseFlags, ParseRest, ToSign, Local;
  }

  lemma SignedParse<M(!new), L(!new)>(c: Codec<M, L>, data: seq<Byte>, t: seq<Byte>)
    returns (rand1: seq<Byte>, flags: Bits.Bits, d: seq<Byte>, rest: Rest<M, L>)
    requires Local(c) && Parse(c, data).Some? && Parse(c, data).value.toSign == Some(t)
    ensures |flags| == 32 && flags[SIGNATURE_FLAG] && |d| + 4 <= |data|
    ensures ParseFlags(c, data) == Some((rand1, flags, d)) && ParseRest(c, flags, d) == Some(rest)
    ensures rest.behind <= rest.before <= |d|
    ensures Parse(c, data).value.packet == Packet(rand1, rest.fields, rest.signature, rest.rand2)
    ensures t == ToSign(data, |data| - |d| - 4, flags, |data| - rest.before, |data| - rest.behind)
  {
    hide ParseFlags, ParseRest, ToSign, Local;
    var head := ParseFlags(c, data).value;
    rand1, flags, d := head.0, head.1, head.2;
    rest := ParseRest(c, flags, d).value;
  }

  lemma CoveredParse<M(!new), L(!new)>(c: Codec<M, L>, data: seq<Byte>, rand1: seq<Byte>, flags: Bits.Bits, d: seq<Byte>, rest: Rest<M, L>, t: seq<Byte>)
    requires Local(c) && |flags| == 32 && flags[SIGNATURE_FLAG] && |d| + 4 <= |data| && rest.behind <= rest.before <= |d|
    requires ParseFlags(c, data) == Some((rand1, flags, d)) && ParseRest(c, flags, d) == Some(rest)
    requires t == ToSign(data, |data| - |d| - 4, flags, |data| - rest.before, |data| - rest.behind)
    ensures Parse(c, t) == Some(Parsed(Packet(rand1, rest.fields, None, rest.rand2), None))
  {
    hide ParseFlags, ParseRest, ToSign, Cut, Local, Parse;
    CoveredFlags(c, data, rand1, flags, d, rest.before, rest.behind);
    CoveredFields(c, flags, d);
    UnsignedParse(c, t, rand1, flags[SIGNATURE_FLAG := false], Cut(d, rest.before, rest.behind),
                  Rest(rest.fields, None, rest.rand2, rest.behind, rest.behind));
  }

  /** For every accepted datagram with a signature, the bytes the signature is checked against are the same packet without it. */
  lemma SignatureCovers<M(!new), L(!new)>(c: Codec<M, L>, data: seq<Byte>, p: Packet<M, L>, t: seq<Byte>)
    requires Local(c) && Parse(c, data) == Some(Parsed(p, Some(t)))
    ensures Parse(c, t) == Some(Parsed(p.(signature := None), None))
  {
    hide ParseFlags, ParseRest, ToSign, Local, Parse;
    var rand1, flags, d, rest := SignedParse(c, data, t);
    CoveredParse(c, data, rand1, flags, d, rest, t);
  }

  lemma Whole(data: seq<Byte>, rest: seq<Byte>, extra: seq<Byte>)
    requires IsSuffix(rest, data)
    ensures Used(data, rest) + (rest + extra) == data + extra
  {
  }

  lemma BytesMore(data: seq<Byte>, extra: seq<Byte>)
    requires FromBytes(data).Some?
    ensures FromBytes(data + extra) == Some((FromBytes(data).value.0, FromBytes(data).value.1 + extra))
  {
    hide FromBytes;
    var rest := FromBytes(data).value.1;
    FromBytesLocal(data, rest + extra);
    Whole(data, rest, extra);
  }

  lemma EndStops<M(!new), L(!new)>(fields: Fields<M, L>, signed: bool, data: seq<Byte>, extra: seq<Byte>)
    requires ParseEnd(fields, signed, data).Some? && extra != []
    ensures ParseEnd(fields, signed, data + extra).None?
  {
    hide FromBytes;
    if signed {
      BytesMore(data, extra);
      BytesMore(FromBytes(data).value.1, extra);
    } else {
      BytesMore(data, extra);
    }
  }

  lemma RestStops<M(!new), L(!new)>(c: Codec<M, L>, flags: Bits.Bits, data: seq<Byte>, extra: seq<Byte>)
    requires Local(c) && |flags| == 32 && ParseRest(c, flags, data).Some? && extra != []
    ensures ParseRest(c, flags, data + extra).None?
  {
    hide TakeFields, ParseEnd, Local;
    var fields := TakeFields(c, flags, data).value;
    FieldsLocal(c, flags, data, fields.1 + extra);
    Whole(data, fields.1, extra);
    EndStops(fields.0, flags[SIGNATURE_FLAG], fields.1, extra);
  }

  lemma FlagsStop<M(!new), L(!new)>(c: Codec<M, L>, data: seq<Byte>, extra: seq<Byte>)
    requires ParseFlags(c, data).Some?
    ensures var r := ParseFlags(c, data).value; ParseFlags(c, data + extra) == Some((r.0, r.1, r.2 + extra))
  {
    hide FromBytes;
    var rest := FromBytes(data[4..]).value.1;
    BytesMore(data[4..], extra);
    Four(data, extra);
    Four(rest, extra);
  }

  lemma Four(data: seq<Byte>, extra: seq<Byte>)
    requires |data| >= 4
    ensures (data + extra)[..4] == data[..4] && (data + extra)[4..] == data[4..] + extra
  {
  }

  /** A packet takes the whole datagram: with anything behind it it is refused. */
  lemma NothingBehind<M(!new), L(!new)>(c: Codec<M, L>, data: seq<Byte>, extra: seq<Byte>)
    requires Local(c) && Parse(c, data).Some? && extra != []
    ensures Parse(c, data + extra).None?
  {
    hide ParseFlags, ParseRest, ToSign, Local;
    var head := ParseFlags(c, data).value;
    FlagsStop(c, data, extra);
    RestStops(c, head.1, head.2, extra);
  }

  /** A datagram with another constructor is no packet, and a source key of another kind is refused. */
  lemma OtherIdsRefused<M(!new), L(!new)>(c: Codec<M, L>, data: seq<Byte>, flags: Bits.Bits, d: seq<Byte>)
    requires Local(c) && |flags| == 32
    ensures |data| < 4 || FromLe(data[..4]) != c.packetId ==> Parse(c, data).None?
    ensures flags[0] && (|d| < 36 || FromLe(d[..4]) != c.keyId) ==> TakeFields(c, flags, d).None?
    ensures flags[0] && TakeFields(c, flags, d).Some? ==> TakeFields(c, flags, d).value.0.from == Some(d[4..36])
  {
    hide TakeShort, TakeAllMessages, TakeLists, TakeCounters, TakeReinit, ParseRest, FromBytes, ToSign, Local;
  }

  // ---- The packet as it is read and written ----

  /** The packet without its signature, copied out of the datagram. Without a signature everything is copied. */
  method BuildPacketToSign(data: seq<Byte>, flagsOffset: nat, flags: Bits.Bits, signatureStart: int, signatureEnd: int)
    returns (toSign: array<Byte>)
    requires |flags| == 32 && flagsOffset + 4 <= |data|
    requires signatureStart >= 0 ==> flagsOffset + 4 <= signatureStart <= signatureEnd <= |data|
    ensures fresh(toSign)
    ensures signatureStart >= 0 ==> toSign[..] == ToSign(data, flagsOffset, flags, signatureStart, signatureEnd)
    ensures signatureStart < 0 ==> toSign[..] == Over(data, flagsOffset, Le(Bits.Value(flags[SIGNATURE_FLAG := false]), 4))
  {
    var n := |data|;
    if signatureStart >= 0 {
      n := n - (signatureEnd - signatureStart);
    }
    toSign := new Byte[n](_ => 0);
    if signatureStart >= 0 {
      CopyInto(toSign, 0, data[..signatureStart]);
      CopyInto(toSign, signatureStart, data[signatureEnd..]);
      assert toSign[..] == data[..signatureStart] + data[signatureEnd..];
    } else {
      CopyInto(toSign, 0, data);
      assert toSign[..] == data;
    }
    CopyInto(toSign, flagsOffset, Le(Bits.Value(flags[SIGNATURE_FLAG := false]), 4));
  }

  method CopyInto(dst: array<Byte>, pos: nat, src: seq<Byte>)
    requires pos + |src| <= dst.Length
    modifies dst
    ensures dst[..] == Over(old(dst[..]), pos, src)
  {
    for i := 0 to |src|
      invariant forall k :: 0 <= k < dst.Length ==> dst[k] == if pos <= k < pos + i then src[k - pos] else old(dst[k])
    {
      dst[pos + i] := src[i];
    }
  }

  method ParseMessages<M(!new), L(!new)>(c: Codec<M, L>, n: nat, data: seq<Byte>, before: seq<M>) returns (r: Option<(seq<M>, seq<Byte>)>)
    requires Local(c)
    ensures r == match TakeMessages(c, n, data) case None => None case Some(t) => Some((before + t.0, t.1))
  {
    var messages, d := before, data;
    for i := 0 to n
      invariant TakeMessages(c, i, data).Some?
      invariant messages == before + TakeMessages(c, i, data).value.0 && d == TakeMessages(c, i, data).value.1
    {
      var m := c.decMessage(d);
      if m.None? {
        NoMoreMessages(c, i + 1, n, data);
        return None;
      }
      messages, d := messages + [m.value.0], m.value.1;
    }
    return Some((messages, d));
  }

  method ReadHead<M(!new), L(!new)>(c: Codec<M, L>, flags: Bits.Bits, data: seq<Byte>) returns (r: Option<(Head<M>, seq<Byte>)>)
    requires |flags| == 32 && Local(c)
    ensures r == TakeHead(c, flags, data)
  {
    var from := TakeKey(c.keyId, flags[0], data);
    if from.None? {
      return None;
    }
    var short := TakeShort(flags[1], from.value.1);
    if short.None? {
      return None;
    }
    var messages := ParseMessages(c, if flags[2] then 1 else 0, short.value.1, []);
    assert messages == TakeMessages(c, if flags[2] then 1 else 0, short.value.1) by {
      if messages.Some? {
        var t := TakeMessages(c, if flags[2] then 1 else 0, short.value.1).value;
        assert [] + t.0 == t.0;
      }
    }
    if messages.Some? && flags[3] {
      var (front, d) := messages.value;
      if |d| < 4 {
        return None;
      }
      messages := ParseMessages(c, FromLe(d[..4]), d[4..], front);
    }
    if messages.None? {
      return None;
    }
    return Some((Head(from.value.0, short.value.0, messages.value.0), messages.value.1));
  }

  /** Reads a datagram field by field and cuts out what its signature covers. */
  method ParsePacket<M(!new), L(!new)>(c: Codec<M, L>, data: seq<Byte>) returns (r: Option<Parsed<M, L>>)
    requires Local(c)
    ensures r == Parse(c, data)
  {
    var start := ParseFlags(c, data);
    if start.None? {
      return None;
    }
    var (rand1, flags, d) := start.value;
    var rest := ReadRest(c, flags, d);
    if rest.None? {
      return None;
    }
    ParseIs(c, data, rand1, flags, d, rest.value);
    var parsed := Finish(data, rand1, flags, |d|, rest.value);
    return Some(parsed);
  }

  /** The packet, with what its signature covers if it has one. */
  method Finish<M(!new), L(!new)>(data: seq<Byte>, rand1: seq<Byte>, flags: Bits.Bits, left: nat, rest: Rest<M, L>) returns (p: Parsed<M, L>)
    requires |flags| == 32 && rest.behind <= rest.before <= left && left + 4 <= |data|
    ensures p == Assemble(data, rand1, flags, left, rest)
  {
    var packet := Packet(rand1, rest.fields, rest.signature, rest.rand2);
    if !flags[SIGNATURE_FLAG] {
      return Parsed(packet, None);
    }
    var toSign := BuildPacketToSign(data, |data| - left - 4, flags, |data| - rest.before, |data| - rest.behind);
    return Parsed(packet, Some(toSign[..]));
  }

  method ReadRest<M(!new), L(!new)>(c: Codec<M, L>, flags: Bits.Bits, data: seq<Byte>) returns (r: Option<Rest<M, L>>)
    requires |flags| == 32 && Local(c)
    ensures r == ParseRest(c, flags, data)
  {
    var head := ReadHead(c, flags, data);
    if head.None? {
      return None;
    }
    var lists := TakeLists(c, flags, head.value.1);
    if lists.None? {
      return None;
    }
    var counters := TakeCounters(flags, lists.value.1);
    if counters.None? {
      return None;
    }
    var reinit := TakeReinit(flags[10], counters.value.1);
    if reinit.None? {
      return None;
    }
    var (h, l, n) := (head.value.0, lists.value.0, counters.value.0);
    var fields := Fields(h.from, h.short, h.messages, l.0, l.1, n.seqno, n.confirmSeqno, n.recvAddr, n.recvPriorityAddr,
                         reinit.value.0.0, reinit.value.0.1);
    return ParseEnd(fields, flags[SIGNATURE_FLAG], reinit.value.1);
  }

  lemma {:induction false} NoMoreMessages<M(!new), L(!new)>(c: Codec<M, L>, i: nat, n: nat, data: seq<Byte>)
    requires Local(c) && i <= n && TakeMessages(c, i, data).None?
    ensures TakeMessages(c, n, data).None?
    decreases n
  {
    if i < n {
      NoMoreMessages(c, i, n - 1, data);
    }
  }

  lemma Gathered(o: seq<Byte>, a: seq<Byte>, b: seq<Byte>, d: seq<Byte>, e: seq<Byte>, f: seq<Byte>, g: seq<Byte>, h: seq<Byte>)
    ensures o + a + b + d + e + f + g + h == o + (a + (b + (d + (e + (f + (g + h))))))
  {
    Assoc(o + a + b + d + e + f, g, h);
    Assoc(o + a + b + d + e, f, g + h);
    Assoc(o + a + b + d, e, f + (g + h));
    Assoc(o + a + b, d, e + (f + (g + h)));
    Assoc(o + a, b, d + (e + (f + (g + h))));
    Assoc(o, a, b + (d + (e + (f + (g + h)))));
  }

  lemma GatheredFour(o: seq<Byte>, a: seq<Byte>, b: seq<Byte>, d: seq<Byte>, e: seq<Byte>)
    ensures o + a + b + d + e == o + (a + (b + (d + e)))
  {
    Assoc(o + a + b, d, e);
    Assoc(o + a, b, d + e);
    Assoc(o, a, b + (d + e));
  }

  method WriteCounters<M(!new), L(!new)>(f: Fields<M, L>, buf: Buffer)
    requires buf.Valid()
    modifies buf, buf.data
    ensures buf.Valid() && (buf.data == old(buf.data) || fresh(buf.data))
    ensures buf.Contents() == old(buf.Contents()) + PutCounters(f)
  {
    GatheredFour(buf.Contents(), PutUint(f.seqno, 8), PutUint(f.confirmSeqno, 8), PutUint(f.recvAddrVersion, 4),
                 PutUint(f.recvPriorityAddrVersion, 4));
    buf.Write(PutUint(f.seqno, 8));
    buf.Write(PutUint(f.confirmSeqno, 8));
    buf.Write(PutUint(f.recvAddrVersion, 4));
    buf.Write(PutUint(f.recvPriorityAddrVersion, 4));
  }

  method WriteList<M(!new), L(!new)>(c: Codec<M, L>, o: Option<L>, buf: Buffer) returns (ok: bool)
    requires buf.Valid()
    modifies buf, buf.data
    ensures buf.Valid() && (buf.data == old(buf.data) || fresh(buf.data))
    ensures ok <==> (o.Some? ==> c.encList(o.value).Some?)
    ensures ok ==> buf.Contents() == old(buf.Contents()) + PutList(c, o)
  {
    if o.Some? {
      var bytes := c.encList(o.value);
      if bytes.None? {
        return false;
      }
      buf.Write(bytes.value);
    }
    return true;
  }

  /** The source and the messages; the size of the message section comes back. */
  method WriteHead<M(!new), L(!new)>(c: Codec<M, L>, f: Fields<M, L>, buf: Buffer) returns (payload: Option<nat>)
    requires buf.Valid()
    modifies buf, buf.data
    ensures buf.Valid() && (buf.data == old(buf.data) || fresh(buf.data))
    ensures payload.Some? <==> (f.from.Some? ==> |f.from.value| == KEY_SIZE) && f.messages != [] && AllEncode(c, f.messages)
    ensures payload.Some? ==> payload.value == |PutAllMessages(c, f.messages)|
    ensures payload.Some? ==>
              buf.Contents() == old(buf.Contents()) + PutKey(c.keyId, f.from) + PutShort(f.fromShort) + PutAllMessages(c, f.messages)
  {
    if f.from.Some? && |f.from.value| != KEY_SIZE {
      return None;
    }
    buf.Write(PutKey(c.keyId, f.from));
    buf.Write(PutShort(f.fromShort));
    payload := WriteMessages(c, f.messages, buf);
  }

  /** The address lists, the counters and the reinit dates. */
  method WriteTail<M(!new), L(!new)>(c: Codec<M, L>, f: Fields<M, L>, buf: Buffer) returns (ok: bool)
    requires buf.Valid()
    modifies buf, buf.data
    ensures buf.Valid() && (buf.data == old(buf.data) || fresh(buf.data))
    ensures ok <==> && (f.address.Some? ==> c.encList(f.address.value).Some?)
                    && (f.priorityAddress.Some? ==> c.encList(f.priorityAddress.value).Some?)
                    && (f.reinitDate.Some? ==> f.dstReinitDate.Some?)
    ensures ok ==> buf.Contents() == old(buf.Contents()) + PutList(c, f.address) + PutList(c, f.priorityAddress) + PutCounters(f) + PutReinit(f)
  {
    ok := WriteList(c, f.address, buf);
    if !ok {
      return;
    }
    ok := WriteList(c, f.priorityAddress, buf);
    if !ok {
      return;
    }
    WriteCounters(f, buf);
    if f.reinitDate.Some? && f.dstReinitDate.None? {
      return false;
    }
    buf.Write(PutReinit(f));
  }

  /** The fields in schema order; the size of the message section comes back. */
  method WriteFields<M(!new), L(!new)>(c: Codec<M, L>, f: Fields<M, L>, buf: Buffer) returns (payload: Option<nat>)
    requires buf.Valid()
    modifies buf, buf.data
    ensures buf.Valid() && (buf.data == old(buf.data) || fresh(buf.data))
    ensures payload.Some? <==> Encodable(c, f)
    ensures payload.Some? ==> buf.Contents() == old(buf.Contents()) + PutFields(c, f) && payload.value == |PutAllMessages(c, f.messages)|
  {
    payload := WriteHead(c, f, buf);
    if payload.None? {
      return;
    }
    var ok := WriteTail(c, f, buf);
    if !ok {
      return None;
    }
    Gathered(old(buf.Contents()), PutKey(c.keyId, f.from), PutShort(f.fromShort), PutAllMessages(c, f.messages), PutList(c, f.address),
             PutList(c, f.priorityAddress), PutCounters(f), PutReinit(f));
  }

  /** A mask with one bit set. */
  lemma {:induction false} MaskIs(k: nat, w: nat)
    requires k < w
    ensures Bits.OfNat(Pow2(k), w) == Bits.Zeros(w)[k := true]
  {
    if k == 0 {
      NoMask(w - 1);
      assert Bits.Zeros(w)[0 := true] == [true] + Bits.Zeros(w - 1);
    } else {
      MaskIs(k - 1, w - 1);
      assert Bits.Zeros(w)[k := true] == [false] + Bits.Zeros(w - 1)[k - 1 := true];
    }
  }

  lemma {:induction false} NoMask(w: nat)
    ensures Bits.OfNat(0, w) == Bits.Zeros(w)
  {
    if w > 0 {
      NoMask(w - 1);
      assert Bits.Zeros(w) == [false] + Bits.Zeros(w - 1);
    }
  }

  /** Or-ing in the constant of a flag when its field is there. */
  method Raise(flags: Bits.Bits, on: bool, mask: nat, ghost k: nat) returns (r: Bits.Bits)
    requires |flags| == 32 && k < 32 && mask == Pow2(k)
    ensures |r| == 32 && forall i :: 0 <= i < 32 ==> r[i] == (flags[i] || (on && i == k))
  {
    r := flags;
    if on {
      MaskIs(k, 32);
      r := Bits.Or(flags, Bits.OfNat(mask, 32));
    }
  }

  lemma Masks()
    ensures Pow2(0) == 0x1 && Pow2(1) == 0x2 && Pow2(2) == 0x4 && Pow2(3) == 0x8 && Pow2(4) == 0x10 && Pow2(5) == 0x20
    ensures Pow2(6) == 0x40 && Pow2(7) == 0x80 && Pow2(8) == 0x100 && Pow2(9) == 0x200 && Pow2(10) == 0x400 && Pow2(11) == 0x800
  {
  }

  /** The flag word, one field at a time in the order of the writer: the counters and the signature first. */
  method CounterFlags<M(!new), L(!new)>(f: Fields<M, L>, signed: bool) returns (flags: Bits.Bits)
    ensures |flags| == 32 && forall i :: 0 <= i < 32 ==> flags[i] == ((6 <= i < 10 || i == SIGNATURE_FLAG) && Flag(f, signed, i))
  {
    Masks();
    flags := Bits.Zeros(32);
    flags := Raise(flags, f.seqno.Some?, 0x40, 6);
    flags := Raise(flags, f.confirmSeqno.Some?, 0x80, 7);
    flags := Raise(flags, f.recvAddrVersion.Some?, 0x100, 8);
    flags := Raise(flags, f.recvPriorityAddrVersion.Some?, 0x200, 9);
    flags := Raise(flags, signed, 0x800, SIGNATURE_FLAG);
  }

  /** Then the source, the lists and the dates. */
  method SourceFlags<M(!new), L(!new)>(f: Fields<M, L>, signed: bool) returns (flags: Bits.Bits)
    ensures |flags| == 32 && forall i :: 0 <= i < 32 ==> flags[i] == (!(2 <= i < 4) && Flag(f, signed, i))
  {
    Masks();
    flags := CounterFlags(f, signed);
    flags := Raise(flags, f.from.Some?, 0x1, 0);
    flags := Raise(flags, f.fromShort.Some?, 0x2, 1);
    flags := Raise(flags, f.address.Some?, 0x10, 4);
    flags := Raise(flags, f.priorityAddress.Some?, 0x20, 5);
    flags := Raise(flags, f.reinitDate.Some?, 0x400, 10);
  }

  /** Last, one message or many. */
  method ComputeFlags<M(!new), L(!new)>(f: Fields<M, L>, signed: bool) returns (flags: Bits.Bits)
    ensures flags == Flags(f, signed)
  {
    Masks();
    flags := SourceFlags(f, signed);
    if |f.messages| > 1 {
      flags := Raise(flags, true, 0x8, 3);
    } else {
      flags := Raise(flags, true, 0x4, 2);
    }
  }

  /** The constructor, the first padding and the flag word. */
  method WriteStart<M(!new), L(!new)>(c: Codec<M, L>, rand1: seq<Byte>, flags: Bits.Bits, buf: Buffer)
    requires buf.Valid()
    modifies buf, buf.data
    ensures buf.Valid() && (buf.data == old(buf.data) || fresh(buf.data))
    ensures buf.Contents() == old(buf.Contents()) + Start(c, rand1) + Le(Bits.Value(flags), 4)
  {
    Assoc(buf.Contents(), Le(c.packetId, 4), Wire(rand1));
    buf.Write(Le(c.packetId, 4));
    buf.Write(Wire(rand1));
    buf.Write(Le(Bits.Value(flags), 4));
  }

  /** Writes the packet behind what the buffer holds and returns the size of its message section. */
  method Serialize<M(!new), L(!new)>(c: Codec<M, L>, p: Packet<M, L>, buf: Buffer) returns (payload: Option<nat>)
    requires buf.Valid()
    modifies buf, buf.data
    ensures buf.Valid() && (buf.data == old(buf.data) || fresh(buf.data))
    ensures payload.Some? <==> Encodable(c, p.fields)
    ensures payload.Some? ==> buf.Contents() == old(buf.Contents()) + Bytes(c, p)
    ensures payload.Some? ==> payload.value == |PutAllMessages(c, p.fields.messages)|
  {
    var flags := ComputeFlags(p.fields, p.signature.Some?);
    WriteStart(c, p.rand1, flags, buf);
    payload := WriteFields(c, p.fields, buf);
    if payload.None? {
      return;
    }
    buf.Write(PutBytes(p.signature));
    buf.Write(Wire(p.rand2));
    PacketGathered(old(buf.Contents()), Start(c, p.rand1), Le(Bits.Value(flags), 4), PutFields(c, p.fields), PutBytes(p.signature),
                   Wire(p.rand2));
  }

  lemma PacketGathered(o: seq<Byte>, b: seq<Byte>, d: seq<Byte>, e: seq<Byte>, f: seq<Byte>, g: seq<Byte>)
    ensures o + b + d + e + f + g == o + (b + (d + (e + (f + g))))
  {
    Assoc(o + b + d + e, f, g);
    Assoc(o + b + d, e, f + g);
    Assoc(o + b, d, e + (f + g));
    Assoc(o, b, d + (e + (f + g)));
  }

  /** The fast writer for channel packets: padding, one message already on the wire, and the two counters. */
  method SerializeChannelPacket(packetId: nat, rand1: seq<Byte>, rand2: seq<Byte>, seqno: nat, confirmSeqno: nat, message: seq<Byte>,
                                buf: Buffer) returns (payload: nat)
    requires buf.Valid()
    modifies buf, buf.data
    ensures buf.Valid() && (buf.data == old(buf.data) || fresh(buf.data))
    ensures buf.Contents() == old(buf.Contents()) + ChannelBytes(packetId, rand1, rand2, seqno, confirmSeqno, message)
    ensures payload == |message|
  {
    buf.Write(Le(packetId, 4));
    buf.Write(Wire(rand1));
    buf.Write(Le(0xC4, 4));
    buf.Write(message);
    buf.Write(Le(seqno, 8));
    buf.Write(Le(confirmSeqno, 8));
    buf.Write(Wire(rand2));
    Gathered(old(buf.Contents()), Le(packetId, 4), Wire(rand1), Le(0xC4, 4), message, Le(seqno, 8), Le(confirmSeqno, 8), Wire(rand2));
    return |message|;
  }

  /** What the fast writer writes. */
  function ChannelBytes(packetId: nat, rand1: seq<Byte>, rand2: seq<Byte>, seqno: nat, confirmSeqno: nat, message: seq<Byte>): seq<Byte> {
    Le(packetId, 4) + (Wire(rand1) + (Le(0xC4, 4) + (message + (Le(seqno, 8) + (Le(confirmSeqno, 8) + Wire(rand2))))))
  }

  /** The packet a channel sends. */
  function ChannelPacket<M(!new), L(!new)>(rand1: seq<Byte>, rand2: seq<Byte>, seqno: nat, confirmSeqno: nat, m: M): Packet<M, L> {
    Packet(rand1, Fields(None, None, [m], None, None, Some(seqno), Some(confirmSeqno), None, None, None, None), None, rand2)
  }

  lemma ChannelFlags<M(!new), L(!new)>(f: Fields<M, L>)
    requires f.from.None? && f.fromShort.None? && |f.messages| == 1 && f.address.None? && f.priorityAddress.None?
    requires f.seqno.Some? && f.confirmSeqno.Some? && f.recvAddrVersion.None? && f.recvPriorityAddrVersion.None? && f.reinitDate.None?
    ensures Bits.Value(Flags(f, false)) == 0xC4
  {
    var b := Flags(f, false);
    NoBits(b[8..]);
    assert Bits.Value(b[7..]) == 1 + 2 * Bits.Value(b[8..]) by { assert b[7..][1..] == b[8..]; }
    assert Bits.Value(b[6..]) == 1 + 2 * Bits.Value(b[7..]) by { assert b[6..][1..] == b[7..]; }
    assert Bits.Value(b[5..]) == 2 * Bits.Value(b[6..]) by { assert b[5..][1..] == b[6..]; }
    assert Bits.Value(b[4..]) == 2 * Bits.Value(b[5..]) by { assert b[4..][1..] == b[5..]; }
    assert Bits.Value(b[3..]) == 2 * Bits.Value(b[4..]) by { assert b[3..][1..] == b[4..]; }
    assert Bits.Value(b[2..]) == 1 + 2 * Bits.Value(b[3..]) by { assert b[2..][1..] == b[3..]; }
    assert Bits.Value(b[1..]) == 2 * Bits.Value(b[2..]) by { assert b[1..][1..] == b[2..]; }
  }

  lemma {:induction false} NoBits(b: Bits.Bits)
    requires forall i :: 0 <= i < |b| ==> !b[i]
    ensures Bits.Value(b) == 0
  {
    if b != [] {
      NoBits(b[1..]);
    }
  }

  lemma ChannelFields<M(!new), L(!new)>(c: Codec<M, L>, f: Fields<M, L>, m: M, seqno: nat, confirmSeqno: nat)
    requires c.encMessage(m).Some?
    requires f == Fields(None, None, [m], None, None, Some(seqno), Some(confirmSeqno), None, None, None, None)
    ensures Encodable(c, f) && PutFields(c, f) == c.encMessage(m).value + (Le(seqno, 8) + Le(confirmSeqno, 8))
  {
    OneMessage(c, m);
    assert PutCounters(f) == Le(seqno, 8) + Le(confirmSeqno, 8);
    Blanks(c.encMessage(m).value, Le(seqno, 8) + Le(confirmSeqno, 8));
  }

  lemma OneMessage<M(!new), L(!new)>(c: Codec<M, L>, m: M)
    requires c.encMessage(m).Some?
    ensures AllEncode(c, [m]) && PutAllMessages(c, [m]) == c.encMessage(m).value
  {
    assert PutMessages(c, []) == [] && [m][..0] == [];
  }

  lemma Blanks(d: seq<Byte>, g: seq<Byte>)
    ensures [] + ([] + (d + ([] + ([] + (g + []))))) == d + g
  {
    assert g + [] == g;
  }

  /** The fast writer writes the same bytes as the general one. */
  lemma ChannelWriterAgrees<M(!new), L(!new)>(c: Codec<M, L>, rand1: seq<Byte>, rand2: seq<Byte>, seqno: nat, confirmSeqno: nat, m: M)
    requires c.encMessage(m).Some?
    ensures var p: Packet<M, L> := ChannelPacket(rand1, rand2, seqno, confirmSeqno, m);
            Encodable(c, p.fields) && Bytes(c, p) == ChannelBytes(c.packetId, rand1, rand2, seqno, confirmSeqno, c.encMessage(m).value)
  {
    var p: Packet<M, L> := ChannelPacket(rand1, rand2, seqno, confirmSeqno, m);
    ChannelFlags(p.fields);
    ChannelFields(c, p.fields, m, seqno, confirmSeqno);
    ChannelRegroup(Le(c.packetId, 4), Wire(rand1), Le(0xC4, 4), c.encMessage(m).value, Le(seqno, 8), Le(confirmSeqno, 8), Wire(rand2));
  }

  lemma ChannelRegroup(a: seq<Byte>, b: seq<Byte>, d: seq<Byte>, e: seq<Byte>, f: seq<Byte>, g: seq<Byte>, h: seq<Byte>)
    ensures (a + b) + (d + ((e + (f + g)) + ([] + h))) == a + (b + (d + (e + (f + (g + h)))))
  {
    assert [] + h == h;
    Assoc(e, f + g, h);
    Assoc(f, g, h);
    Assoc(a, b, d + (e + (f + (g + h))));
  }

  /** The message section: a count if there are several, then each message. */
  method WriteMessages<M(!new), L(!new)>(c: Codec<M, L>, ms: seq<M>, buf: Buffer) returns (size: Option<nat>)
    requires buf.Valid()
    modifies buf, buf.data
    ensures buf.Valid() && (buf.data == old(buf.data) || fresh(buf.data))
    ensures size.Some? <==> ms != [] && AllEncode(c, ms)
    ensures size.Some? ==> buf.Contents() == old(buf.Contents()) + PutAllMessages(c, ms) && size.value == |PutAllMessages(c, ms)|
  {
    if |ms| == 0 {
      return None;
    }
    var from := buf.len;
    ghost var head: seq<Byte> := if |ms| > 1 then Le(|ms|, 4) else [];
    if |ms| > 1 {
      buf.Write(Le(|ms|, 4));
    }
    for i := 0 to |ms|
      invariant buf.Valid() && (buf.data == old(buf.data) || fresh(buf.data))
      invariant AllEncode(c, ms[..i]) && buf.Contents() == old(buf.Contents()) + (head + PutMessages(c, ms[..i]))
    {
      var m := c.encMessage(ms[i]);
      if m.None? {
        return None;
      }
      MoreMessages(c, ms, i, head);
      Assoc(old(buf.Contents()), head + PutMessages(c, ms[..i]), m.value);
      buf.Write(m.value);
    }
    assert ms[..|ms|] == ms;
    return Some(buf.len - from);
  }

  lemma MoreMessages<M(!new), L(!new)>(c: Codec<M, L>, ms: seq<M>, i: nat, head: seq<Byte>)
    requires i < |ms| && AllEncode(c, ms[..i]) && c.encMessage(ms[i]).Some?
    ensures AllEncode(c, ms[..i + 1])
    ensures head + PutMessages(c, ms[..i + 1]) == (head + PutMessages(c, ms[..i])) + c.encMessage(ms[i]).value
  {
    assert ms[..i + 1][..i] == ms[..i];
    Assoc(head, PutMessages(c, ms[..i]), c.encMessage(ms[i]).value);
  }

  /** A destination date without a reinit date is not written, so the packet comes back without it. */
  lemma LoneDestinationDateIsLost<M(!new), L(!new)>(c: Codec<M, L>, p: Packet<M, L>)
    requires Sound(c) && Local(c) && Encodable(c, p.fields) && FitsWire(p)
    requires p.fields.reinitDate.None? && (p.fields.fromShort.Some? ==> |p.fields.fromShort.value| == KEY_SIZE)
    ensures Parse(c, Bytes(c, p)).Some?
    ensures Parse(c, Bytes(c, p)).value.packet == p.(fields := p.fields.(dstReinitDate := None))
  {
    var q := p.(fields := p.fields.(dstReinitDate := None));
    UnwrittenDate(c, p);
    OtherFieldsFit(p);
    hide Parse, Bytes, FitsWire, Local, Sound;
    ParseInverts(c, q);
  }

  lemma OtherFieldsFit<M(!new), L(!new)>(p: Packet<M, L>)
    requires FitsWire(p)
    ensures FitsWire(p.(fields := p.fields.(dstReinitDate := None)))
  {
  }

  lemma UnwrittenDate<M(!new), L(!new)>(c: Codec<M, L>, p: Packet<M, L>)
    requires Encodable(c, p.fields) && p.fields.reinitDate.None?
    ensures Encodable(c, p.fields.(dstReinitDate := None))
    ensures Bytes(c, p) == Bytes(c, p.(fields := p.fields.(dstReinitDate := None)))
  {
    var f := p.fields.(dstReinitDate := None);
    assert Flags(f, p.signature.Some?) == Flags(p.fields, p.signature.Some?);
    assert PutCounters(f) == PutCounters(p.fields);
  }
}
