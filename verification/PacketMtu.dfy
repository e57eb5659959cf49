/** Building channel packets that fit the network's packet size (adnl/adnl.go, adnl/channel.go, adnl/packet.go): whole messages and
    the parts of split ones, whatever padding is drawn. */
module PacketMtu {
  import opened Options
  import opened TlBytes
  import opened TlBuffer
  import opened Packets
  import opened PacketIo
  import opened MultipartRuns
  import U128s

  const MAX_MTU: int := 1500 - 40 - 8
  const BASE_PAYLOAD_MTU: int := 1024
  const HUGE_PACKET_MAX_SIZE: int := 1024 * 8 + 128

  /** Fifteen or seven of sixteen random bytes. */
  function ResizeRand(data: seq<Byte>): (r: seq<Byte>)
    requires |data| == 16
    ensures |r| == (if data[0] % 2 == 1 then 15 else 7) && r <= data[1..]
  {
    if data[0] % 2 == 1 then data[1..] else data[1..8]
  }

  /** The channel's keys at work: an outgoing id, a checksum and a stream cipher. */
  datatype Cipher = Cipher(idEnc: seq<Byte>, checksum: seq<Byte> -> seq<Byte>, xor: (seq<Byte>, seq<Byte>) -> seq<Byte>)

  ghost predicate Lengths(k: Cipher) {
    && |k.idEnc| == 32
    && (forall b :: |k.checksum(b)| == 32)
    && (forall b, sum :: |k.xor(b, sum)| == |b|)
  }

  function Seal(k: Cipher, body: seq<Byte>): seq<Byte> {
    k.idEnc + k.checksum(body) + k.xor(body, k.checksum(body))
  }

  /** One part of a split message on the wire. */
  function PartWire(partId: nat, hash: seq<Byte>, part: Part): seq<Byte> {
    Le(partId, 4) + hash + Le(part.totalSize, 4) + Le(part.offset, 4) + Wire(part.data)
  }

  /** A receiver reads the constructor, the hash, the total size, the offset and the data back in that order. */
  lemma PartReads(partId: nat, hash: seq<Byte>, part: Part)
    requires |hash| == 32 && partId < TWO32 && 0 <= part.totalSize < TWO32 && 0 <= part.offset < TWO32 && |part.data| < TWO32
    ensures var w := PartWire(partId, hash, part);
            && |w| >= 44 && FromLe(w[..4]) == partId && w[4..36] == hash
            && FromLe(w[36..40]) == part.totalSize && FromLe(w[40..44]) == part.offset
            && FromBytes(w[44..]) == Some((part.data, []))
  {
    FourBytes();
    hide FromBytes, Le, FromLe, Pow256;
    LeRoundTrip(partId, 4);
    LeRoundTrip(part.totalSize, 4);
    LeRoundTrip(part.offset, 4);
    FromBytesInvertsEncode(part.data, []);
    FiveParts(Le(partId, 4), hash, Le(part.totalSize, 4), Le(part.offset, 4), Wire(part.data));
    assert Wire(part.data) + [] == Wire(part.data);
  }

  lemma FourBytes()
    ensures Pow256(4) == TWO32
  {
    PowersOf256();
  }

  lemma FiveParts(a: seq<Byte>, b: seq<Byte>, d: seq<Byte>, e: seq<Byte>, f: seq<Byte>)
    requires |a| == 4 && |b| == 32 && |d| == 4 && |e| == 4
    ensures var w := a + b + d + e + f;
            |w| >= 44 && w[..4] == a && w[4..36] == b && w[36..40] == d && w[40..44] == e && w[44..] == f
  {
  }

  /** A sealed packet: 32 bytes of channel id, 32 of checksum over the plain body, and the body under the cipher keyed by it. */
  lemma SealIs(k: Cipher, body: seq<Byte>)
    requires Lengths(k)
    ensures var s := Seal(k, body);
            |s| == 64 + |body| && s[..32] == k.idEnc && s[32..64] == k.checksum(body) && s[64..] == k.xor(body, s[32..64])
  {
  }

  /** The sizes a channel packet has around its message. */
  ghost predicate IsHeader(h: int) {
    h == 40 || h == 48 || h == 56
  }

  lemma WireSize(data: seq<Byte>)
    ensures |data| == 7 ==> |Wire(data)| == 8
    ensures |data| == 15 ==> |Wire(data)| == 16
    ensures |data| < TWO24 ==> |Wire(data)| == HeaderLen(|data|) + |data| + Padding(HeaderLen(|data|) + |data|)
  {
  }

  lemma ChannelSize(packetId: nat, rand1: seq<Byte>, rand2: seq<Byte>, seqno: nat, confirmSeqno: nat, message: seq<Byte>)
    requires (|rand1| == 15 || |rand1| == 7) && (|rand2| == 15 || |rand2| == 7)
    ensures IsHeader(|ChannelBytes(packetId, rand1, rand2, seqno, confirmSeqno, message)| - |message|)
  {
    WireSize(rand1);
    WireSize(rand2);
  }

  lemma PartSize(partId: nat, hash: seq<Byte>, part: Part, mtu: nat)
    requires |hash| == 32 && |part.data| <= mtu < TWO24 && mtu % 4 == 0
    ensures |PartWire(partId, hash, part)| <= 4 + 32 + 4 + 4 + 4 + mtu
  {
    WireSize(part.data);
    RoundedUp(|part.data|, mtu);
  }

  lemma RoundedUp(n: nat, mtu: nat)
    requires n <= mtu < TWO24 && mtu % 4 == 0
    ensures HeaderLen(n) + n + Padding(HeaderLen(n) + n) <= 4 + mtu
  {
  }

  /** How large a message may be to go out whole, and how large the parts of a larger one are, after a packet whose header had
      `h` bytes; none was sent yet when it is zero. */
  function WholeMtu(h: nat): int {
    if h > 0 then MAX_MTU - 32 - 64 - h else BASE_PAYLOAD_MTU
  }

  function PartMtu(h: nat): int {
    if h > 0 then
      var budget := MAX_MTU - (32 + 32) - h - (4 + 32 + 4 + 4 + 4) - 2 * (15 - 7);
      budget - budget % 4
    else BASE_PAYLOAD_MTU
  }

  /** The budgets in bytes, by the header size remembered. */
  lemma Budgets()
    ensures WholeMtu(0) == 1024 && WholeMtu(40) == 1316 && WholeMtu(48) == 1308 && WholeMtu(56) == 1300
    ensures PartMtu(0) == 1024 && PartMtu(40) == 1284 && PartMtu(48) == 1276 && PartMtu(56) == 1268
    ensures MAX_MTU == 1452 && HUGE_PACKET_MAX_SIZE == 8320
  {
  }

  datatype Built =
    | Whole(packet: seq<Byte>)
    | Split(packets: seq<seq<Byte>>)
    | TooBigPayload
    | BiggerThanMtu
    | Oversize

  /** What a sender draws on: constructor ids, the channel's cipher, the random bytes for its `n`th packet and the message hash. */
  datatype Link = Link(packetId: nat, partId: nat, cipher: Cipher, random: nat -> seq<Byte>, hash: seq<Byte> -> seq<Byte>) {
    ghost predicate Valid() {
      && Lengths(cipher)
      && (forall n :: |random(n)| == 32)
      && (forall b :: |hash(b)| == 32)
    }

    /** The `n`th packet, carrying `message`. */
    ghost function PacketOf(n: nat, confirm: nat, message: seq<Byte>): seq<Byte>
      requires Valid()
    {
      Seal(cipher, ChannelBytes(packetId, ResizeRand(random(n)[..16]), ResizeRand(random(n)[16..]), n, confirm, message))
    }

    /** The packet of the `k`th part of `msg`, the first part being the `n`th packet. */
    ghost function PartPacket(n: nat, confirm: nat, msg: seq<Byte>, mtu: nat, k: nat): seq<Byte>
      requires Valid() && mtu > 0
    {
      if k < PartCount(|msg|, mtu) then PacketOf(n + k, confirm, PartWire(partId, hash(msg), PartAt(msg, mtu, k))) else []
    }

    lemma PartPacketIs(n: nat, confirm: nat, msg: seq<Byte>, mtu: nat, k: nat, wire: seq<Byte>)
      requires Valid() && mtu > 0 && k < PartCount(|msg|, mtu) && wire == PartWire(partId, hash(msg), PartAt(msg, mtu, k))
      ensures PartPackets(n, confirm, msg, mtu)(k) == PacketOf(n + k, confirm, wire)
    {
    }

    /** What comes of `msg`: a whole packet if it is small enough, refused if it is huge, else the packets of its parts; nothing
        is ever too large. */
    ghost predicate Builds(r: Built, n: nat, confirm: nat, msg: seq<Byte>, h: nat)
      requires Valid()
    {
      if |msg| <= WholeMtu(h) then r == Whole(PacketOf(n, confirm, msg))
      else if |msg| > HUGE_PACKET_MAX_SIZE then r == TooBigPayload
      else
        && r.Split? && PartMtu(h) > 0
        && Complete(r.packets, PartPackets(n, confirm, msg, PartMtu(h)), msg, PartMtu(h))
    }

    ghost function PartPackets(n: nat, confirm: nat, msg: seq<Byte>, mtu: nat): nat -> seq<Byte>
      requires Valid() && mtu > 0
    {
      k => PartPacket(n, confirm, msg, mtu, k)
    }
  }

  /** A list of packets that fit, each the one it should be. */
  ghost predicate AllFit(packets: seq<seq<Byte>>, expected: nat -> seq<Byte>) {
    forall k :: 0 <= k < |packets| ==> packets[k] == expected(k) && |packets[k]| <= MAX_MTU
  }

  ghost predicate AreParts(parts: seq<Part>, msg: seq<Byte>, mtu: nat)
    requires mtu > 0
  {
    |parts| == PartCount(|msg|, mtu) && forall i :: 0 <= i < |parts| ==> parts[i] == PartAt(msg, mtu, i)
  }

  method Parts(msg: seq<Byte>, mtu: nat) returns (parts: seq<Part>)
    requires mtu > 0
    ensures AreParts(parts, msg, mtu)
  {
    parts := SplitMessage(msg, mtu);
  }

  /** All the packets of a split message. */
  ghost predicate Complete(packets: seq<seq<Byte>>, expected: nat -> seq<Byte>, msg: seq<Byte>, mtu: nat)
    requires mtu > 0
  {
    |packets| == PartCount(|msg|, mtu) && AllFit(packets, expected)
  }

  lemma OneMoreFits(packets: seq<seq<Byte>>, expected: nat -> seq<Byte>, packet: seq<Byte>)
    requires AllFit(packets, expected) && packet == expected(|packets|) && |packet| <= MAX_MTU
    ensures AllFit(packets + [packet], expected)
  {
  }

  /** A peer with a ready channel, sending plain channel packets. */
  class Sender {
    const link: Link
    var prevHeader: nat
    var seqno: nat
    var confirmSeqno: nat

    constructor (link: Link)
      ensures this.link == link && prevHeader == 0 && seqno == 0 && confirmSeqno == 0
    {
      this.link := link;
      prevHeader, seqno, confirmSeqno := 0, 0, 0;
    }

    method BuildPacket(message: seq<Byte>, ghost n: nat, ghost confirm: nat) returns (out: seq<Byte>)
      requires link.Valid() && n == seqno + 1 && confirm == confirmSeqno
      modifies this`seqno, this`prevHeader
      ensures seqno == n && IsHeader(prevHeader)
      ensures out == link.PacketOf(n, confirm, message) && |out| == 64 + prevHeader + |message|
    {
      seqno := seqno + 1;
      var rand := link.random(seqno);
      var rand1, rand2 := ResizeRand(rand[..16]), ResizeRand(rand[16..]);
      var buf := new Buffer(MAX_MTU);
      var payload := SerializeChannelPacket(link.packetId, rand1, rand2, seqno, confirmSeqno, message, buf);
      var body := buf.data[..buf.len];
      assert body == ChannelBytes(link.packetId, rand1, rand2, seqno, confirmSeqno, message);
      ChannelSize(link.packetId, rand1, rand2, seqno, confirmSeqno, message);
      prevHeader := |body| - payload;
      out := Seal(link.cipher, body);
    }

    /** Builds the packets of all parts, or stops at the first one that is too large; none is when the parts are small enough. */
    method BuildParts(msg: seq<Byte>, mtu: nat, ghost n: nat, ghost confirm: nat) returns (ok: bool, packets: seq<seq<Byte>>)
      requires link.Valid() && mtu > 0 && n == seqno + 1 && confirm == confirmSeqno
      modifies this`seqno, this`prevHeader
      ensures ok ==> Complete(packets, link.PartPackets(n, confirm, msg, mtu), msg, mtu)
      ensures mtu % 4 == 0 && 64 + 56 + 48 + mtu <= MAX_MTU ==> ok
    {
      var parts := Parts(msg, mtu);
      ghost var expected := link.PartPackets(n, confirm, msg, mtu);
      packets := [];
      for i := 0 to |parts|
        invariant |packets| == i && seqno + 1 == n + i && AllFit(packets, expected)
      {
        ok, packets := BuildNext(msg, mtu, parts, packets, n, confirm, expected);
        if !ok {
          return;
        }
      }
      return true, packets;
    }

    method BuildNext(msg: seq<Byte>, mtu: nat, parts: seq<Part>, before: seq<seq<Byte>>, ghost n: nat, ghost confirm: nat,
                     ghost expected: nat -> seq<Byte>) returns (ok: bool, packets: seq<seq<Byte>>)
      requires link.Valid() && mtu > 0 && AreParts(parts, msg, mtu) && |before| < |parts| && seqno + 1 == n + |before|
      requires confirm == confirmSeqno && expected == link.PartPackets(n, confirm, msg, mtu) && AllFit(before, expected)
      modifies this`seqno, this`prevHeader
      ensures seqno == old(seqno) + 1
      ensures ok ==> |packets| == |before| + 1 && AllFit(packets, expected)
      ensures mtu % 4 == 0 && 64 + 56 + 48 + mtu <= MAX_MTU ==> ok
    {
      var packet := BuildPart(msg, mtu, parts[|before|], |before|, n, confirm, expected);
      if |packet| > MAX_MTU {
        return false, before;
      }
      OneMoreFits(before, expected, packet);
      return true, before + [packet];
    }

    method BuildPart(msg: seq<Byte>, mtu: nat, part: Part, ghost i: nat, ghost n: nat, ghost confirm: nat, ghost expected: nat -> seq<Byte>)
      returns (packet: seq<Byte>)
      requires link.Valid() && mtu > 0 && i < PartCount(|msg|, mtu) && part == PartAt(msg, mtu, i) && seqno + 1 == n + i
      requires confirm == confirmSeqno && expected == link.PartPackets(n, confirm, msg, mtu)
      modifies this`seqno, this`prevHeader
      ensures seqno == old(seqno) + 1 && packet == expected(i)
      ensures mtu % 4 == 0 && 64 + 56 + 48 + mtu <= MAX_MTU ==> |packet| <= MAX_MTU
    {
      var wire := PartWire(link.partId, link.hash(msg), part);
      PartFits(link.partId, link.hash(msg), msg, mtu, i);
      packet := BuildPacket(wire, n + i, confirm);
      link.PartPacketIs(n, confirm, msg, mtu, i, wire);
    }

    /** One attempt at the packet, or the packets of the parts, after a packet whose header had `h` bytes. */
    method Attempt(msg: seq<Byte>, h: nat, ghost n: nat, ghost confirm: nat) returns (r: Built)
      requires link.Valid() && n == seqno + 1 && confirm == confirmSeqno
      modifies this`seqno, this`prevHeader
      ensures Fits(r) && (h == 0 || IsHeader(h) ==> link.Builds(r, n, confirm, msg, h))
    {
      if WholeMtu(h) <= 0 {
        return BiggerThanMtu;
      }
      if |msg| > WholeMtu(h) {
        if |msg| > HUGE_PACKET_MAX_SIZE {
          return TooBigPayload;
        }
        var mtu := PartMtu(h);
        if mtu <= 0 {
          return BiggerThanMtu;
        }
        var ok, packets := BuildParts(msg, mtu, n, confirm);
        return if ok then Split(packets) else Oversize;
      }
      var packet := BuildPacket(msg, n, confirm);
      return if |packet| <= MAX_MTU then Whole(packet) else Oversize;
    }

    /** Builds the packet, or the packets of the parts, for a message on the wire; an attempt that turns out too large is made
        again with the smallest sizes. */
    method BuildRequestMaySplit(msg: seq<Byte>, useBase: bool, ghost n: nat, ghost confirm: nat) returns (r: Built)
      requires link.Valid() && n == seqno + 1 && confirm == confirmSeqno
      modifies this`seqno, this`prevHeader
      ensures Fits(r) && r != Oversize
      ensures var h := if useBase then 0 else old(prevHeader);
              h == 0 || IsHeader(h) ==> link.Builds(r, n, confirm, msg, h)
      decreases !useBase
    {
      r := Attempt(msg, if useBase then 0 else prevHeader, n, confirm);
      if r == Oversize {
        if useBase {
          return BiggerThanMtu;
        }
        r := BuildRequestMaySplit(msg, true, seqno + 1, confirm);
      }
    }
  }

  ghost predicate Fits(r: Built) {
    && (r.Whole? ==> |r.packet| <= MAX_MTU)
    && (r.Split? ==> forall i :: 0 <= i < |r.packets| ==> |r.packets[i]| <= MAX_MTU)
  }

  lemma PartFits(partId: nat, hash: seq<Byte>, msg: seq<Byte>, mtu: nat, i: nat)
    requires |hash| == 32 && mtu > 0 && i < PartCount(|msg|, mtu)
    ensures mtu % 4 == 0 && mtu < TWO24 ==> |PartWire(partId, hash, PartAt(msg, mtu, i))| <= 48 + mtu
  {
    PartBounds(|msg|, mtu, i);
    assert PartEnd(|msg|, mtu, i) - i * mtu <= mtu;
    if mtu % 4 == 0 && mtu < TWO24 {
      PartSize(partId, hash, PartAt(msg, mtu, i), mtu);
    }
  }

  /** However the parts of a sent message arrive, they are accepted and give the message back. */
  lemma SentPartsRebuild(msg: seq<Byte>, h: nat, order: seq<nat>)
    requires (h == 0 || IsHeader(h)) && WholeMtu(h) < |msg| <= HUGE_PACKET_MAX_SIZE
    requires forall i :: 0 <= i < |order| ==> order[i] < PartCount(|msg|, PartMtu(h))
    requires forall p :: 0 <= p < PartCount(|msg|, PartMtu(h)) ==> p in order
    ensures var (s, ready, fine) := Deliver(msg, PartMtu(h), order); fine && s.buf == msg && ready == 1
  {
    FewParts(|msg|, PartMtu(h));
    AnyOrderRebuilds(msg, PartMtu(h), order);
  }

  lemma FewParts(n: nat, mtu: nat)
    requires n <= HUGE_PACKET_MAX_SIZE && mtu >= 1024
    ensures PartCount(n, mtu) <= 64
  {
    U128s.DivBelow(n, mtu, 10);
  }
}
