/** Little-endian numbers and the length-prefixed, 4-aligned byte strings of TL (tl/bytes.go). */
module TlBytes {
  import opened Options

  type Byte = x: int | 0 <= x < 256 witness 0

  const TWO24: int := 0x100_0000
  const TWO32: int := 0x1_0000_0000
  const TWO64: int := 0x1_0000_0000_0000_0000

  function Pow256(w: nat): (p: nat)
    ensures p > 0
  {
    if w == 0 then 1 else 256 * Pow256(w - 1)
  }

  /** The low `w` bytes of `n`, least significant first. */
  function Le(n: nat, w: nat): (s: seq<Byte>)
    ensures |s| == w
  {
    if w == 0 then [] else [n % 256] + Le(n / 256, w - 1)
  }

  function FromLe(s: seq<Byte>): nat {
    if s == [] then 0 else s[0] + 256 * FromLe(s[1..])
  }

  lemma PowersOf256()
    ensures Pow256(1) == 0x100 && Pow256(2) == 0x1_0000 && Pow256(3) == TWO24 && Pow256(4) == TWO32 && Pow256(8) == TWO64
  {
    assert Pow256(5) == 256 * Pow256(4) && Pow256(6) == 256 * Pow256(5) && Pow256(7) == 256 * Pow256(6);
  }

  lemma {:induction false} LeRoundTrip(n: nat, w: nat)
    requires n < Pow256(w)
    ensures FromLe(Le(n, w)) == n
  {
    if w > 0 {
      LeRoundTrip(n / 256, w - 1);
      assert Le(n, w)[1..] == Le(n / 256, w - 1);
    }
  }

  lemma {:induction false} FromLeBound(s: seq<Byte>)
    ensures FromLe(s) < Pow256(|s|)
  {
    if s != [] {
      FromLeBound(s[1..]);
    }
  }

  function Zeros(n: nat): (s: seq<Byte>)
    ensures |s| == n
  {
    seq(n, _ => 0)
  }

  /** `c` with the bytes from `pos` on replaced by `bytes`. */
  function Over(c: seq<Byte>, pos: nat, bytes: seq<Byte>): (r: seq<Byte>)
    requires pos + |bytes| <= |c|
    ensures |r| == |c|
  {
    c[..pos] + bytes + c[pos + |bytes|..]
  }

  function Padding(size: nat): (p: nat)
    ensures p < 4 && (size + p) % 4 == 0
  {
    (4 - size % 4) % 4
  }

  function HeaderLen(len: nat): nat {
    if len < 0xFE then 1 else if len < TWO24 then 4 else 8
  }

  /** The length header: one byte, 0xFE and three bytes, or 0xFF, four bytes and three zeros. */
  function Header(len: nat): (h: seq<Byte>)
    requires len < TWO32
    ensures |h| == HeaderLen(len)
  {
    if len < 0xFE then [len]
    else if len < TWO24 then Le(len * 256 + 0xFE, 4)
    else [0xFF] + Le(len, 4) + [0, 0, 0]
  }

  /** Encoded size of `len` bytes, header and padding included; none from 2^32 bytes on. */
  function EncodedSize(len: nat): Option<nat> {
    if len >= TWO32 then None
    else Some(HeaderLen(len) + len + Padding(HeaderLen(len) + len))
  }

  function Encode(data: seq<Byte>): (r: Option<seq<Byte>>)
    ensures r.Some? <==> EncodedSize(|data|).Some?
    ensures r.Some? ==> |r.value| == EncodedSize(|data|).value
  {
    if |data| >= TWO32 then None
    else Some(Header(|data|) + data + Zeros(Padding(HeaderLen(|data|) + |data|)))
  }

  /** Reads one byte string and returns it with the rest of the input. */
  function FromBytes(data: seq<Byte>): (r: Option<(seq<Byte>, seq<Byte>)>)
    ensures r.Some? ==> |data| - |r.value.1| >= 4 && r.value.1 == data[|data| - |r.value.1|..]
  {
    if |data| == 0 then None
    else if data[0] == 0xFE then
      if |data| < 4 then None else Take(data, 4, FromLe(data[1..4]))
    else if data[0] == 0xFF then
      if |data| < 8 then None
      else if data[5] != 0 || data[6] != 0 || data[7] != 0 then None
      else Take(data, 8, FromLe(data[1..5]))
    else Take(data, 1, data[0])
  }

  function Take(data: seq<Byte>, offset: nat, len: nat): (r: Option<(seq<Byte>, seq<Byte>)>)
    ensures r.Some? && offset > 0 ==> |data| - |r.value.1| >= 4 && r.value.1 == data[|data| - |r.value.1|..]
  {
    var size := offset + len + Padding(offset + len);
    if |data| < size then None else Some((data[offset..offset + len], data[size..]))
  }

  /** Reading what was written gives back the bytes and leaves whatever followed. */
  lemma FromBytesInvertsEncode(data: seq<Byte>, rest: seq<Byte>)
    requires |data| < TWO32
    ensures FromBytes(Encode(data).value + rest) == Some((data, rest))
  {
    var n := |data|;
    var wire := Encode(data).value + rest;
    PowersOf256();
    HeaderReads(n, wire);
    var h := HeaderLen(n);
    var size := h + n + Padding(h + n);
    assert wire[h..h + n] == data;
    assert wire[size..] == rest;
  }

  lemma HeaderReads(n: nat, wire: seq<Byte>)
    requires n < TWO32 && Header(n) <= wire
    ensures FromBytes(wire) == Take(wire, HeaderLen(n), n)
  {
    PowersOf256();
    if n < 0xFE {
      assert wire[0] == Header(n)[0];
    } else if n < TWO24 {
      assert wire[..4] == Header(n);
      assert wire[0] == Header(n)[0] == 0xFE;
      assert wire[1..4] == Header(n)[1..] == Le(n, 3);
      LeRoundTrip(n, 3);
    } else {
      assert wire[..8] == Header(n);
      assert wire[0] == Header(n)[0] && wire[5] == Header(n)[5] && wire[6] == Header(n)[6] && wire[7] == Header(n)[7];
      assert wire[1..5] == Header(n)[1..5] == Le(n, 4);
      LeRoundTrip(n, 4);
    }
  }
}
