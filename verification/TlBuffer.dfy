/** The growable byte buffer that TL values are written into, and the in-place insertion of a length
    header in front of bytes already written (tl/bytes.go). */
module TlBuffer {
  import opened Options
  import opened TlBytes

  /** `c` after the bytes `i` up to `j` of the range at `src` were copied to the range at `dst`. */
  ghost function MovedTo(c: seq<Byte>, dst: nat, src: nat, i: nat, j: nat): (r: seq<Byte>)
    requires i <= j && dst + j <= |c| && src + j <= |c|
    ensures |r| == |c|
  {
    seq(|c|, k requires 0 <= k < |c| => if dst + i <= k < dst + j then c[src + (k - dst)] else c[k])
  }

  lemma MovedStep(c: seq<Byte>, dst: nat, src: nat, i: nat, j: nat)
    requires i <= j && dst + j < |c| && src + j < |c| && dst <= src
    ensures MovedTo(c, dst, src, i, j)[src + j] == c[src + j]
    ensures MovedTo(c, dst, src, i, j)[dst + j := c[src + j]] == MovedTo(c, dst, src, i, j + 1)
  {
  }

  lemma MovedStepDown(c: seq<Byte>, dst: nat, src: nat, i: nat, j: nat)
    requires i < j && dst + j <= |c| && src + j <= |c| && dst > src
    ensures MovedTo(c, dst, src, i + 1, j)[src + i] == c[src + i]
    ensures MovedTo(c, dst, src, i + 1, j)[dst + i := c[src + i]] == MovedTo(c, dst, src, i, j)
  {
  }

  lemma MovedAll(c: seq<Byte>, dst: nat, src: nat, n: nat)
    requires dst + n <= |c| && src + n <= |c|
    ensures MovedTo(c, dst, src, 0, n) == Over(c, dst, c[src..src + n])
    ensures MovedTo(c, dst, src, n, n) == c == MovedTo(c, dst, src, 0, 0)
  {
  }

  lemma ShortShift(c: seq<Byte>, from: nat, n: nat)
    requires from + 4 + n == |c| && n < 0xFE
    ensures var c1 := Over(c, from, [n]);
            Over(c1, from + 1, c1[from + 4..from + 4 + n])[..|c| - 3] == c[..from] + Header(n) + c[from + 4..]
  {
  }

  lemma LongShift(c: seq<Byte>, from: nat, n: nat)
    requires from + 4 + n == |c| && n >= 4
    ensures var c1 := c + Zeros(4);
            Over(c1, from + 8, c1[from + 4..from + 4 + n]) ==
            c[..from] + (c[from..from + 4] + c[from + 4..from + 8]) + c[from + 4..]
  {
  }

  lemma LongHeader(prefix: seq<Byte>, eight: seq<Byte>, payload: seq<Byte>, n: nat)
    requires |eight| == 8 && TWO24 <= n < TWO32
    ensures var from := |prefix|;
            var c := prefix + eight + payload;
            Over(Over(Over(c, from, Zeros(8)), from, [0xFF]), from + 1, Le(n, 4)) == prefix + Header(n) + payload
  {
    var from := |prefix|;
    var c := prefix + eight + payload;
    var c1 := Over(c, from, Zeros(8));
    assert c1 == prefix + Zeros(8) + payload;
    var c2 := Over(c1, from, [0xFF]);
    assert c2 == prefix + ([0xFF] + Zeros(7)) + payload;
    assert Over(c2, from + 1, Le(n, 4)) == prefix + ([0xFF] + Le(n, 4) + Zeros(3)) + payload;
  }

  lemma PadTo4(c: seq<Byte>, from: nat, n: nat)
    requires from + 4 + n == |c| && n < TWO32
    ensures var p := HeaderLen(n) + n;
            c[..from] + Encode(c[from + 4..]).value ==
            if p % 4 == 0 then c[..from] + Header(n) + c[from + 4..]
            else c[..from] + Header(n) + c[from + 4..] + Zeros(4 - p % 4)
  {
    var z := Zeros(Padding(HeaderLen(n) + n));
    assert c[..from] + (Header(n) + c[from + 4..] + z) == c[..from] + Header(n) + c[from + 4..] + z;
  }

  class Buffer {
    var data: array<Byte>
    var len: nat

    ghost predicate Valid()
      reads this
    {
      len <= data.Length
    }

    ghost function Contents(): (s: seq<Byte>)
      reads this, data
      requires Valid()
      ensures |s| == len
    {
      data[..len]
    }

    constructor (capacity: nat)
      ensures Valid() && fresh(data) && Contents() == []
    {
      data := new Byte[capacity];
      len := 0;
    }

    /** Makes room for `n` more bytes, moving to a larger array when the spare capacity is too small. */
    method Grow(n: nat)
      requires Valid()
      modifies this
      ensures Valid() && len + n <= data.Length && Contents() == old(Contents())
      ensures data == old(data) || fresh(data)
    {
      if n <= data.Length - len {
        return;
      }
      var next := new Byte[len + n](i requires 0 <= i < len + n reads this, data => if i < len && i < data.Length then data[i] else 0);
      data := next;
    }

    /** Overwrites the bytes from `pos` on. */
    method Put(pos: nat, bytes: seq<Byte>)
      requires Valid() && pos + |bytes| <= len
      modifies data
      ensures data == old(data) && Contents() == Over(old(Contents()), pos, bytes)
    {
      for i := 0 to |bytes|
        invariant forall k :: 0 <= k < len ==> data[k] == if pos <= k < pos + i then bytes[k - pos] else old(data[k])
      {
        data[pos + i] := bytes[i];
      }
    }

    method Write(bytes: seq<Byte>)
      requires Valid()
      modifies this, data
      ensures Valid() && Contents() == old(Contents()) + bytes
      ensures data == old(data) || fresh(data)
    {
      Grow(|bytes|);
      ghost var before := data[..len];
      var at := len;
      len := len + |bytes|;
      Put(at, bytes);
      assert data[..len][..at] == before;
    }

    method Truncate(n: nat)
      requires Valid() && n <= len
      modifies this`len
      ensures Valid() && Contents() == old(Contents())[..n]
    {
      len := n;
    }

    /** Copies `n` bytes from `src` to `dst`; the two ranges may overlap. */
    method Move(dst: nat, src: nat, n: nat)
      requires Valid() && dst + n <= len && src + n <= len
      modifies data
      ensures data == old(data)
      ensures Contents() == Over(old(Contents()), dst, old(Contents())[src..src + n])
    {
      ghost var was := data[..len];
      MovedAll(was, dst, src, n);
      if dst <= src {
        for i := 0 to n
          invariant data[..len] == MovedTo(was, dst, src, 0, i)
        {
          MovedStep(was, dst, src, 0, i);
          assert data[src + i] == data[..len][src + i];
          ghost var next := data[..len][dst + i := was[src + i]];
          data[dst + i] := data[src + i];
          assert data[..len] == next;
        }
      } else {
        for i := n downto 0
          invariant data[..len] == MovedTo(was, dst, src, i, n)
        {
          MovedStepDown(was, dst, src, i, n);
          assert data[src + i] == data[..len][src + i];
          ghost var next := data[..len][dst + i := was[src + i]];
          data[dst + i] := data[src + i];
          assert data[..len] == next;
        }
      }
    }

    method InsertShortHeader(from: nat)
      requires Valid() && from + 4 <= len && len - from - 4 < 0xFE
      modifies this, data
      ensures Valid() && data == old(data)
      ensures Contents() == old(Contents())[..from] + Header(old(len) - from - 4) + old(Contents())[from + 4..]
    {
      var n := len - from - 4;
      ShortShift(Contents(), from, n);
      Put(from, [n]);
      Move(from + 1, from + 4, n);
      Truncate(len - 3);
    }

    method InsertLongHeader(from: nat)
      requires Valid() && from + 4 <= len && TWO24 <= len - from - 4 < TWO32
      modifies this, data
      ensures Valid() && (data == old(data) || fresh(data))
      ensures Contents() == old(Contents())[..from] + Header(old(len) - from - 4) + old(Contents())[from + 4..]
    {
      var n := len - from - 4;
      ghost var was := Contents();
      LongShift(was, from, n);
      LongHeader(was[..from], was[from..from + 4] + was[from + 4..from + 8], was[from + 4..], n);
      Write(Zeros(4));
      Move(from + 8, from + 4, n);
      Put(from, Zeros(8));
      Put(from, [0xFF]);
      Put(from + 1, Le(n, 4));
    }

    /** Puts the length header of what follows `from + 4` in the place of the four bytes there. */
    method InsertHeader(from: nat)
      requires Valid() && from + 4 <= len && len - from - 4 < TWO32
      modifies this, data
      ensures Valid() && (data == old(data) || fresh(data))
      ensures Contents() == old(Contents())[..from] + Header(old(len) - from - 4) + old(Contents())[from + 4..]
    {
      var n := len - (from + 4);
      if n < 0xFE {
        InsertShortHeader(from);
      } else if n < TWO24 {
        Put(from, Le(n * 256 + 0xFE, 4));
      } else {
        InsertLongHeader(from);
      }
    }

    /** Turns the four placeholder bytes at `from` and everything after them into one TL byte string.
        Does nothing and reports false when the payload is too long for a header. */
    method RemapAsTlBytes(from: nat) returns (ok: bool)
      requires Valid() && from + 4 <= len
      modifies this, data
      ensures Valid() && (data == old(data) || fresh(data))
      ensures ok <==> Encode(old(Contents())[from + 4..]).Some?
      ensures Contents() == if ok then old(Contents())[..from] + Encode(old(Contents())[from + 4..]).value else old(Contents())
    {
      var n := len - (from + 4);
      if n >= TWO32 {
        return false;
      }
      ghost var was := Contents();
      InsertHeader(from);
      PadTo4(was, from, n);
      var pad := (len - from) % 4;
      if pad > 0 {
        Write(Zeros(4 - pad));
      }
      return true;
    }
  }
}
