/** Fields that need no recursion, read and written kind by kind (tl/precompile.go, tl/bytes.go): numbers byte by byte, byte
    strings behind their header, fixed-size strings and addresses. */
module TlLeaves {
  import opened Options
  import opened TlBytes
  import opened TlBuffer
  import opened TlSchema
  import opened TlParse

  predicate IsLeaf(t: FieldType) {
    !t.VectorT? && !t.StructT? && !t.IfaceT?
  }

  /** The bytes of such a field. */
  function EncLeaf(t: FieldType, v: Val): Option<seq<Byte>>
    requires IsLeaf(t)
  {
    EncField(Schema(map[], map[]), t, v)
  }

  // ---- Numbers ----

  method AppendUint(dst: seq<Byte>, n: nat, w: nat) returns (r: seq<Byte>)
    ensures r == dst + Le(n, w)
  {
    r := dst;
    var left := n;
    for i := 0 to w
      invariant r + Le(left, w - i) == dst + Le(n, w)
    {
      assert r + ([left % 256] + Le(left / 256, w - i - 1)) == (r + [left % 256]) + Le(left / 256, w - i - 1);
      r, left := r + [left % 256], left / 256;
    }
  }

  method ReadUint(data: seq<Byte>, w: nat) returns (n: nat)
    requires w <= |data|
    ensures n == FromLe(data[..w])
  {
    n := 0;
    for i := w downto 0
      invariant n == FromLe(data[i..w])
    {
      assert data[i..w][1..] == data[i + 1..w];
      n := data[i] + 256 * n;
    }
  }

  // ---- Byte strings ----

  lemma Regrouped(dst: seq<Byte>, header: seq<Byte>, data: seq<Byte>, pad: seq<Byte>)
    ensures dst + header + data + pad == dst + (header + data + pad)
  {
  }

  /** The length header, and how many zeros go behind the data. */
  method AppendBytesHeader(dst: seq<Byte>, len: nat) returns (r: Option<(seq<Byte>, nat)>)
    ensures r == if len < TWO32 then Some((dst + Header(len), Padding(HeaderLen(len) + len))) else None
  {
    if len >= TWO32 {
      return None;
    }
    var headerLen, out := 1, dst;
    if len < 0xFE {
      out := dst + [len];
    } else if len < TWO24 {
      headerLen := 4;
      out := AppendUint(dst, len * 256 + 0xFE, 4);
    } else {
      headerLen := 8;
      out := AppendUint(dst + [0xFF], len, 4);
      out := out + [0, 0, 0];
      assert out == dst + ([0xFF] + Le(len, 4) + [0, 0, 0]);
    }
    var pad := (headerLen + len) % 4;
    return Some((out, if pad > 0 then 4 - pad else 0));
  }

  method AppendTlBytes(dst: seq<Byte>, data: seq<Byte>) returns (r: Option<seq<Byte>>)
    ensures r == Cat(Some(dst), Encode(data))
  {
    var header := AppendBytesHeader(dst, |data|);
    if header.None? {
      return None;
    }
    Regrouped(dst, Header(|data|), data, Zeros(header.value.1));
    return Some(header.value.0 + data + Zeros(header.value.1));
  }

  /** The same into a buffer; nothing is written when the data is too long. */
  method ToBytesToBuffer(buf: Buffer, data: seq<Byte>) returns (ok: bool)
    requires buf.Valid()
    modifies buf, buf.data
    ensures buf.Valid() && (buf.data == old(buf.data) || fresh(buf.data))
    ensures ok <==> Encode(data).Some?
    ensures buf.Contents() == if ok then old(buf.Contents()) + Encode(data).value else old(buf.Contents())
  {
    var header := AppendBytesHeader([], |data|);
    if header.None? {
      return false;
    }
    ghost var was := buf.Contents();
    assert header.value.0 == Header(|data|);
    hide Header, Padding, EncodedSize;
    buf.Write(header.value.0);
    buf.Write(data);
    buf.Write(Zeros(header.value.1));
    Regrouped(was, Header(|data|), data, Zeros(header.value.1));
    return true;
  }

  // ---- Fixed-size strings and addresses ----

  /** The bytes as they are, zeros for none at all, and an error for any other length. */
  method FixedBytes(b: seq<Byte>, size: nat) returns (r: Option<seq<Byte>>)
    ensures r == EncLeaf(FixedT(size), Bts(b))
  {
    if |b| == size {
      return Some(b);
    } else if |b| == 0 {
      return Some(Zeros(size));
    }
    return None;
  }

  method Ip4Bytes(b: seq<Byte>) returns (r: Option<seq<Byte>>)
    ensures r == EncIp4(b)
  {
    var ip := b;
    if |ip| == 16 {
      if ip[..12] != V4_IN_V6 {
        return None;
      }
      ip := ip[12..];
    }
    if |ip| == 4 {
      var out := [];
      for i := 4 downto 0
        invariant |out| == 4 - i && forall k :: 0 <= k < 4 - i ==> out[k] == ip[3 - k]
      {
        out := out + [ip[i]];
      }
      assert out == [ip[3], ip[2], ip[1], ip[0]];
      return Some(out);
    }
    return if |ip| == 0 then Some(Zeros(4)) else None;
  }

  method Ip6Bytes(b: seq<Byte>) returns (r: Option<seq<Byte>>)
    ensures r == EncIp6(b)
  {
    var ip := b;
    if |ip| == 4 {
      ip := V4_IN_V6 + ip;
    }
    if |ip| == 16 {
      return Some(ip);
    }
    return if |ip| == 0 then Some(Zeros(16)) else None;
  }

  // ---- One field ----

  /** The bytes of a field of a fixed size, which both writers put behind what they have. */
  method PlainBytes(t: FieldType, v: Val) returns (r: Option<seq<Byte>>)
    requires IsLeaf(t) && !t.BytesT?
    ensures r == EncLeaf(t, v)
  {
    match t {
      case FlagsT =>
        if !v.Num? || v.n >= TWO32 {
          return None;
        }
        var n := AppendUint([], v.n, 4);
        assert [] + Le(v.n, 4) == Le(v.n, 4);
        return Some(n);
      case NumT(wire, width) =>
        if !v.Num? || v.n >= Pow256(width) {
          return None;
        }
        var n := AppendUint([], v.n, wire);
        assert [] + Le(v.n, wire) == Le(v.n, wire);
        return Some(n);
      case BoolT =>
        if !v.Boolean? {
          return None;
        }
        return Some(if v.on then Le(BOOL_TRUE, 4) else Le(BOOL_FALSE, 4));
      case FixedT(size) =>
        if !v.Bts? {
          return None;
        }
        r := FixedBytes(v.b, size);
      case Ip4T =>
        if !v.Bts? {
          return None;
        }
        r := Ip4Bytes(v.b);
      case Ip6T =>
        if !v.Bts? {
          return None;
        }
        r := Ip6Bytes(v.b);
    }
  }

  method AppendLeaf(dst: seq<Byte>, t: FieldType, v: Val) returns (r: Option<seq<Byte>>)
    requires IsLeaf(t)
    ensures r == Cat(Some(dst), EncLeaf(t, v))
  {
    if t.BytesT? {
      if !v.Bts? {
        return None;
      }
      r := AppendTlBytes(dst, v.b);
    } else {
      var plain := PlainBytes(t, v);
      return if plain.Some? then Some(dst + plain.value) else None;
    }
  }

  /** A leaf that cannot be written leaves the buffer as it was. */
  method WriteLeaf(buf: Buffer, t: FieldType, v: Val) returns (ok: bool)
    requires IsLeaf(t) && buf.Valid()
    modifies buf, buf.data
    ensures buf.Valid() && (buf.data == old(buf.data) || fresh(buf.data))
    ensures ok <==> EncLeaf(t, v).Some?
    ensures buf.Contents() == if ok then old(buf.Contents()) + EncLeaf(t, v).value else old(buf.Contents())
  {
    if t.BytesT? {
      if !v.Bts? {
        return false;
      }
      ok := ToBytesToBuffer(buf, v.b);
    } else {
      var plain := PlainBytes(t, v);
      if plain.None? {
        return false;
      }
      buf.Write(plain.value);
      return true;
    }
  }

  /** Reads such a field; the flags word and every other kind take exactly their bytes. */
  method ReadLeaf(lim: Limits, sch: Schema, f: Field, buf: seq<Byte>, fuel: nat) returns (r: Parsed<Val>)
    requires IsLeaf(f.typ)
    ensures r == ParseField(lim, sch, f, buf, fuel)
  {
    match f.typ {
      case BytesT =>
        var b := FromBytes(buf);
        return if b.Some? then Ok(Bts(b.value.0), b.value.1) else Bad;
      case FlagsT =>
        if |buf| < 4 {
          return Bad;
        }
        var n := ReadUint(buf, 4);
        return Ok(Num(n), buf[4..]);
      case NumT(wire, width) =>
        if |buf| < wire {
          return Bad;
        }
        var n := ReadUint(buf, wire);
        return Ok(Num(n % Pow256(width)), buf[wire..]);
      case BoolT =>
        if |buf| < 4 {
          return Bad;
        }
        var n := ReadUint(buf, 4);
        return Ok(Boolean(n == BOOL_TRUE), buf[4..]);
      case FixedT(size) =>
        if |buf| < size {
          return Bad;
        }
        return Ok(Bts(buf[..size]), buf[size..]);
      case Ip4T =>
        if |buf| < 4 {
          return Bad;
        }
        return Ok(Bts([buf[3], buf[2], buf[1], buf[0]]), buf[4..]);
      case Ip6T =>
        if |buf| < 16 {
          return Bad;
        }
        return Ok(Bts(buf[..16]), buf[16..]);
    }
  }
}
