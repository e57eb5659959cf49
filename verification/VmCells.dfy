/** The cells, builders and slices that VM values are stored in. Dictionaries are kept as their sorted
    entries. */
module VmCells {
  import opened Options
  import opened Powers
  import opened BitNumbers

  datatype Cell =
    | Cell(special: bool, bits: seq<bool>, refs: seq<Cell>)
    | DictRoot(entries: seq<Entry>)

  datatype Entry = Entry(key: nat, bits: seq<bool>, refs: seq<Cell>)

  /** What a builder holds, or what is left of a slice. */
  datatype Chunk = Chunk(bits: seq<bool>, refs: seq<Cell>)

  const EMPTY: Chunk := Chunk([], [])
  const MAX_DEPTH: nat := 1024

  predicate Fits(c: Chunk) {
    |c.bits| <= 1023 && |c.refs| <= 4
  }

  /** A finished builder. */
  function EndCell(c: Chunk): Option<Cell> {
    if Fits(c) then Some(Cell(false, c.bits, c.refs)) else None
  }

  function Depth(c: Cell): nat
    decreases c, 0
  {
    match c
    case Cell(_, _, refs) => DepthRefs(refs)
    case DictRoot(entries) => DepthEntries(entries)
  }

  function DepthRefs(refs: seq<Cell>): nat
    decreases refs, 0
  {
    if refs == [] then 0
    else
      var h, t := 1 + Depth(refs[0]), DepthRefs(refs[1..]);
      if h > t then h else t
  }

  function DepthEntries(es: seq<Entry>): nat
    decreases es, 0
  {
    if es == [] then 0
    else
      var h, t := 1 + DepthRefs(es[0].refs), DepthEntries(es[1..]);
      if h > t then h else t
  }

  /** A cell opened for reading where only ordinary cells are accepted. */
  function OpenOrdinary(c: Cell): Option<Chunk> {
    if c.Cell? && !c.special then Some(Chunk(c.bits, c.refs)) else None
  }

  // Encodings are built from the back: each function below puts one item in front of what follows it.

  function PutUint(n: nat, w: nat, rest: Chunk): Chunk {
    Chunk(UintBits(n, w) + rest.bits, rest.refs)
  }

  function PutInt(n: int, w: nat, rest: Chunk): Chunk
    requires w > 0 && -(Pow2(w - 1) as int) <= n < Pow2(w - 1)
  {
    PutUint(if n < 0 then n + Pow2(w) else n, w, rest)
  }

  function PutBit(b: bool, rest: Chunk): Chunk {
    Chunk([b] + rest.bits, rest.refs)
  }

  /** A reference, refused when it would make the cell too deep. */
  function PutRef(c: Cell, rest: Chunk): Option<Chunk> {
    if Depth(c) >= MAX_DEPTH then None else Some(Chunk(rest.bits, [c] + rest.refs))
  }

  function Peek(s: Chunk, w: nat): Option<nat> {
    if |s.bits| < w then None else Some(Nat(s.bits[..w]))
  }

  /** Bits plus cells below, counting every reference. Reading never makes it grow. */
  function Size(s: Chunk): nat {
    |s.bits| + SizeRefs(s.refs)
  }

  function SizeCell(c: Cell): nat
    decreases c, 0
  {
    match c
    case Cell(_, bits, refs) => 1 + |bits| + SizeRefs(refs)
    case DictRoot(entries) => 1 + SizeEntries(entries)
  }

  function SizeRefs(refs: seq<Cell>): nat
    decreases refs, 0
  {
    if refs == [] then 0 else SizeCell(refs[0]) + SizeRefs(refs[1..])
  }

  function SizeEntries(es: seq<Entry>): nat
    decreases es, 0
  {
    if es == [] then 0 else 1 + |es[0].bits| + SizeRefs(es[0].refs) + SizeEntries(es[1..])
  }

  function TakeUint(s: Chunk, w: nat): (r: Option<(nat, Chunk)>)
    ensures r.Some? ==> Size(r.value.1) == Size(s) - w
  {
    if |s.bits| < w then None else Some((Nat(s.bits[..w]), Chunk(s.bits[w..], s.refs)))
  }

  function TakeInt(s: Chunk, w: nat): (r: Option<(int, Chunk)>)
    requires w > 0
    ensures r.Some? ==> Size(r.value.1) == Size(s) - w
  {
    var (u, s') :- TakeUint(s, w);
    Some((if u >= Pow2(w - 1) then u - Pow2(w) else u, s'))
  }

  function TakeBit(s: Chunk): (r: Option<(bool, Chunk)>)
    ensures r.Some? ==> Size(r.value.1) == Size(s) - 1
  {
    if s.bits == [] then None else Some((s.bits[0], Chunk(s.bits[1..], s.refs)))
  }

  function TakeRef(s: Chunk): (r: Option<(Cell, Chunk)>)
    ensures r.Some? ==> Size(r.value.1) + SizeCell(r.value.0) == Size(s)
  {
    if s.refs == [] then None else Some((s.refs[0], Chunk(s.bits, s.refs[1..])))
  }

  lemma TakePutUint(n: nat, w: nat, rest: Chunk)
    requires n < Pow2(w)
    ensures TakeUint(PutUint(n, w, rest), w) == Some((n, rest))
  {
    NatOfBits(n, w);
    var bits := UintBits(n, w) + rest.bits;
    assert bits[..w] == UintBits(n, w) && bits[w..] == rest.bits;
  }

  lemma TakePutInt(n: int, w: nat, rest: Chunk)
    requires w > 0 && -(Pow2(w - 1) as int) <= n < Pow2(w - 1)
    ensures TakeInt(PutInt(n, w, rest), w) == Some((n, rest))
  {
    TakePutUint(if n < 0 then n + Pow2(w) else n, w, rest);
  }

  lemma TakePutBit(b: bool, rest: Chunk)
    ensures TakeBit(PutBit(b, rest)) == Some((b, rest))
  {
    assert ([b] + rest.bits)[1..] == rest.bits;
  }

  lemma TakePutRef(c: Cell, rest: Chunk)
    requires PutRef(c, rest).Some?
    ensures TakeRef(PutRef(c, rest).value) == Some((c, rest))
  {
    assert ([c] + rest.refs)[1..] == rest.refs;
  }

  /** Looking ahead at the first bits of a number. */
  lemma PeekPut(n: nat, w: nat, rest: Chunk, k: nat)
    requires n < Pow2(w) && k <= w
    ensures Peek(PutUint(n, w, rest), k) == Some(n / Pow2(w - k))
  {
    LeadingBits(n, w, k);
    assert (UintBits(n, w) + rest.bits)[..k] == UintBits(n, w)[..k];
    LeadingFits(n, w, k);
    NatOfBits(n / Pow2(w - k), k);
  }

  lemma {:induction false} LeadingFits(n: nat, w: nat, k: nat)
    requires n < Pow2(w) && k <= w
    ensures n / Pow2(w - k) < Pow2(k)
    decreases w - k
  {
    if k < w {
      LeadingFits(n / 2, w - 1, k);
      HalfThenRest(n, Pow2(w - 1 - k));
    }
  }
}
