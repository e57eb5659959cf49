/** Currency collections: their encoding, the sums that dictionaries of accounts carry at every fork (tlb/block_augs.go,
    tlb/grams128.go), and addition and subtraction (tlb/currency_math.go). Dictionaries are kept as maps from currency ids to the
    raw bits of their amounts. */
module Currency {
  import opened Options
  import opened Powers
  import opened BitNumbers
  import opened VarUints
  import opened Grams
  import opened U128s

  type Dict = map<nat, seq<bool>>

  /** What is left of a slice; a reference is the root of a dictionary. */
  datatype Slice = Slice(bits: seq<bool>, refs: seq<Dict>)

  /** A collection as numbers. */
  datatype Collection = Collection(grams: nat, extra: map<nat, nat>)

  ghost predicate Positive(extra: map<nat, nat>) {
    forall k :: k in extra ==> extra[k] > 0
  }

  /** Grams have a length field of four bits, other amounts one of five. */
  predicate GramsFit(v: nat) {
    Put(v, 4).Some?
  }

  predicate AmountFits(v: nat) {
    Put(v, 5).Some?
  }

  ghost predicate FitsExtra(extra: map<nat, nat>) {
    forall k :: k in extra ==> AmountFits(extra[k])
  }

  /** What can be stored. */
  ghost predicate Fits(c: Collection) {
    GramsFit(c.grams) && FitsExtra(c.extra)
  }

  lemma PutFits(v: nat, l: nat, bytes: nat)
    requires Pow2(l) == bytes + 1
    ensures Put(v, l).Some? <==> v < Pow2(8 * bytes)
  {
    ByteLenIs(v);
    if ByteLen(v) <= bytes {
      Pow2Grows(8 * ByteLen(v), 8 * bytes);
    } else {
      Pow2Grows(8 * bytes, 8 * (ByteLen(v) - 1));
    }
  }

  /** Fifteen bytes of grams and thirty-one of anything else. */
  const GRAMS_BYTES: nat := 15
  const AMOUNT_BYTES: nat := 31

  lemma FitsMeans(c: Collection)
    ensures Fits(c) <==> c.grams < Pow2(8 * GRAMS_BYTES) && forall k :: k in c.extra ==> c.extra[k] < Pow2(8 * AMOUNT_BYTES)
  {
    ByteCounts();
    hide Pow2, Put;
    PutFits(c.grams, 4, GRAMS_BYTES);
    forall k | k in c.extra
      ensures AmountFits(c.extra[k]) <==> c.extra[k] < Pow2(8 * AMOUNT_BYTES)
    {
      PutFits(c.extra[k], 5, AMOUNT_BYTES);
    }
  }

  lemma ByteCounts()
    ensures Pow2(4) == GRAMS_BYTES + 1 && Pow2(5) == AMOUNT_BYTES + 1
  {
  }

  lemma SmallerFits(u: nat, v: nat, l: nat)
    requires u <= v && l > 0 && Put(v, l).Some?
    ensures Put(u, l).Some?
  {
    PutFits(u, l, Pow2(l) - 1);
    PutFits(v, l, Pow2(l) - 1);
  }

  // ---- Extra currencies ----

  /** An amount's bits; zero is never stored. */
  function LoadAmount(bits: seq<bool>): Option<nat> {
    var r :- Take(5, bits);
    if r.0 == 0 then None else Some(r.0)
  }

  function Amount(v: nat): seq<bool> {
    var b := Put(v, 5);
    if b.Some? then b.value else []
  }

  lemma AmountReads(v: nat)
    requires 0 < v && AmountFits(v)
    ensures LoadAmount(Amount(v)) == Some(v)
  {
    TakePut(v, 5, []);
    assert Amount(v) + [] == Amount(v);
  }

  function AddValues(x: seq<bool>, y: seq<bool>): Option<seq<bool>> {
    var a :- LoadAmount(x);
    var b :- LoadAmount(y);
    Put(a + b, 5)
  }

  lemma SumOf(x: seq<bool>, y: seq<bool>, a: nat, b: nat)
    requires LoadAmount(x) == Some(a) && LoadAmount(y) == Some(b)
    ensures AddValues(x, y) == if AmountFits(a + b) then Some(Amount(a + b)) else None
  {
  }

  /** Merges two dictionaries; only ids in both are combined. */
  ghost function Merge(a: Dict, b: Dict, combine: (seq<bool>, seq<bool>) -> Option<seq<bool>>): Option<Dict> {
    if exists k :: k in a && k in b && combine(a[k], b[k]).None? then None
    else Some(map k | k in a.Keys + b.Keys ::
                if k in a && k in b then combine(a[k], b[k]).value else if k in a then a[k] else b[k])
  }

  ghost function AddDicts(a: Dict, b: Dict): Option<Dict> {
    if b == map[] then Some(a)
    else if a == map[] then Some(b)
    else Merge(a, b, AddValues)
  }

  function Each(extra: map<nat, nat>, enc: nat -> seq<bool>): Dict {
    map k | k in extra :: enc(extra[k])
  }

  /** The canonical dictionary of amounts. */
  function Amounts(extra: map<nat, nat>): Dict {
    Each(extra, Amount)
  }

  function At(extra: map<nat, nat>, k: nat): nat {
    if k in extra then extra[k] else 0
  }

  /** The amounts added up, id by id. */
  function SumExtra(a: map<nat, nat>, b: map<nat, nat>): map<nat, nat> {
    map k | k in a.Keys + b.Keys :: At(a, k) + At(b, k)
  }

  /** Merging encoded maps with a combination that adds encoded values encodes the sums, and fails exactly when one does not fit. */
  lemma MergeAdds(a: map<nat, nat>, b: map<nat, nat>, enc: nat -> seq<bool>, fits: nat -> bool,
                  combine: (seq<bool>, seq<bool>) -> Option<seq<bool>>)
    requires (forall k :: k in a ==> fits(a[k])) && forall k :: k in b ==> fits(b[k])
    requires forall k :: k in a && k in b ==> combine(enc(a[k]), enc(b[k])) == if fits(a[k] + b[k]) then Some(enc(a[k] + b[k])) else None
    ensures Merge(Each(a, enc), Each(b, enc), combine) ==
            if forall k :: k in SumExtra(a, b) ==> fits(SumExtra(a, b)[k]) then Some(Each(SumExtra(a, b), enc)) else None
  {
    if forall k :: k in SumExtra(a, b) ==> fits(SumExtra(a, b)[k]) {
      forall k | k in a && k in b
        ensures combine(enc(a[k]), enc(b[k])) == Some(enc(a[k] + b[k]))
      {
        assert SumExtra(a, b)[k] == a[k] + b[k];
      }
      MergeAll(a, b, enc, combine);
    } else {
      var k :| k in SumExtra(a, b) && !fits(SumExtra(a, b)[k]);
      MergeFails(a, b, enc, combine, k);
    }
  }

  lemma MergeAll(a: map<nat, nat>, b: map<nat, nat>, enc: nat -> seq<bool>, combine: (seq<bool>, seq<bool>) -> Option<seq<bool>>)
    requires forall k :: k in a && k in b ==> combine(enc(a[k]), enc(b[k])) == Some(enc(a[k] + b[k]))
    ensures Merge(Each(a, enc), Each(b, enc), combine) == Some(Each(SumExtra(a, b), enc))
  {
    var (da, db) := (Each(a, enc), Each(b, enc));
    forall k | k in da && k in db
      ensures combine(da[k], db[k]) == Some(enc(a[k] + b[k]))
    {
    }
    var m := Merge(da, db, combine).value;
    forall k | k in m
      ensures m[k] == enc(SumExtra(a, b)[k])
    {
    }
    assert m.Keys == SumExtra(a, b).Keys;
    assert m == Each(SumExtra(a, b), enc);
  }

  lemma MergeFails(a: map<nat, nat>, b: map<nat, nat>, enc: nat -> seq<bool>, combine: (seq<bool>, seq<bool>) -> Option<seq<bool>>, k: nat)
    requires k in a && k in b && combine(enc(a[k]), enc(b[k])).None?
    ensures Merge(Each(a, enc), Each(b, enc), combine) == None
  {
    assert k in Each(a, enc) && k in Each(b, enc);
  }

  /** Merging canonical dictionaries gives the canonical dictionary of the sums, and fails exactly when one does not fit. */
  lemma DictsAdd(a: map<nat, nat>, b: map<nat, nat>)
    requires Positive(a) && FitsExtra(a) && Positive(b) && FitsExtra(b)
    ensures AddDicts(Amounts(a), Amounts(b)) == if FitsExtra(SumExtra(a, b)) then Some(Amounts(SumExtra(a, b))) else None
  {
    if a == map[] {
      SumWithNothing(b);
    } else if b == map[] {
      SumWithNothing(a);
    } else {
      NotEmpty(a);
      NotEmpty(b);
      ValuesAdd(a, b);
      MergeAdds(a, b, Amount, AmountFits, AddValues);
    }
  }

  lemma ValuesAdd(a: map<nat, nat>, b: map<nat, nat>)
    requires Positive(a) && FitsExtra(a) && Positive(b) && FitsExtra(b)
    ensures forall k :: k in a && k in b ==>
              AddValues(Amount(a[k]), Amount(b[k])) == if AmountFits(a[k] + b[k]) then Some(Amount(a[k] + b[k])) else None
  {
    forall k | k in a && k in b
      ensures AddValues(Amount(a[k]), Amount(b[k])) == if AmountFits(a[k] + b[k]) then Some(Amount(a[k] + b[k])) else None
    {
      AmountReads(a[k]);
      AmountReads(b[k]);
      SumOf(Amount(a[k]), Amount(b[k]), a[k], b[k]);
    }
  }

  lemma SumWithNothing(a: map<nat, nat>)
    ensures SumExtra(a, map[]) == a && SumExtra(map[], a) == a && Amounts(map[]) == map[]
  {
  }

  lemma NotEmpty(a: map<nat, nat>)
    requires a != map[]
    ensures Amounts(a) != map[]
  {
    var k :| k in a;
    assert k in Amounts(a);
  }

  // ---- Collections as bits ----

  function TakeDict(s: Slice): Option<(Dict, Slice)> {
    if s.bits == [] then None
    else if !s.bits[0] then Some((map[], Slice(s.bits[1..], s.refs)))
    else if s.refs == [] then None
    else Some((s.refs[0], Slice(s.bits[1..], s.refs[1..])))
  }

  function PutDict(d: Dict): Slice {
    if d == map[] then Slice([false], []) else Slice([true], [d])
  }

  /** Reads one amount of grams from each side and stores the sum. */
  function AddGrams(l: seq<bool>, r: seq<bool>): Option<(seq<bool>, seq<bool>, seq<bool>)> {
    var lg :- LoadGrams(l);
    var rg :- LoadGrams(r);
    var (sum, fits) := lg.0.Add(rg.0);
    if !fits then None
    else
      var grams :- StoreGrams(sum);
      Some((grams, lg.1, rg.1))
  }

  /** Adds the collections at the front of two slices. */
  ghost function AddSlices(l: Slice, r: Slice): Option<Slice> {
    var grams :- AddGrams(l.bits, r.bits);
    var extra :- AddExtras(Slice(grams.1, l.refs), Slice(grams.2, r.refs));
    Some(Slice(grams.0 + extra.bits, extra.refs))
  }

  /** The extra currencies behind the grams, with the short cut for the common case of none on either side. */
  ghost function AddExtras(l: Slice, r: Slice): Option<Slice> {
    if l.bits == [] || r.bits == [] then None
    else if !l.bits[0] && !r.bits[0] then Some(Slice([false], []))
    else
      var ld :- TakeDict(l);
      var rd :- TakeDict(r);
      var extra :- AddDicts(ld.0, rd.0);
      Some(PutDict(extra))
  }

  /** A collection as it is stored. */
  function Encoded(c: Collection): Slice {
    var extra := PutDict(Amounts(c.extra));
    Slice(EncodedGrams(c.grams) + extra.bits, extra.refs)
  }

  /** The stored form: the grams, one bit that says whether there are other currencies, and a reference to them if there are. */
  lemma EncodedIs(c: Collection)
    requires Fits(c) && Positive(c.extra)
    ensures var s := Encoded(c);
            && Put(c.grams, 4).Some? && |s.bits| == |Put(c.grams, 4).value| + 1
            && s.bits[..|s.bits| - 1] == Put(c.grams, 4).value && s.bits[|s.bits| - 1] == (c.extra != map[])
            && (c.extra == map[] ==> s.refs == [])
            && (c.extra != map[] ==> |s.refs| == 1 && s.refs[0].Keys == c.extra.Keys
                                     && forall k :: k in c.extra ==> Put(c.extra[k], 5) == Some(s.refs[0][k]))
  {
    if c.extra == map[] {
      SumWithNothing(c.extra);
    } else {
      NotEmpty(c.extra);
    }
  }

  function EncodedGrams(v: nat): seq<bool> {
    var b := Put(v, 4);
    if b.Some? then b.value else []
  }

  function Sum(c: Collection, d: Collection): Collection {
    Collection(c.grams + d.grams, SumExtra(c.extra, d.extra))
  }

  lemma EncodedGramsRead(v: nat, rest: seq<bool>)
    requires GramsFit(v)
    ensures LoadGrams(EncodedGrams(v) + rest).Some?
    ensures var r := LoadGrams(EncodedGrams(v) + rest).value; r.0.Value() == v && r.1 == rest
  {
    TakePut(v, 4, rest);
    LoadGramsIs(EncodedGrams(v) + rest);
  }

  lemma ExtrasAdd(a: map<nat, nat>, b: map<nat, nat>)
    requires Positive(a) && FitsExtra(a) && Positive(b) && FitsExtra(b)
    ensures AddExtras(PutDict(Amounts(a)), PutDict(Amounts(b))) ==
            if FitsExtra(SumExtra(a, b)) then Some(PutDict(Amounts(SumExtra(a, b)))) else None
  {
    DictsAdd(a, b);
    var (da, db) := (Amounts(a), Amounts(b));
    if da == map[] && db == map[] {
      assert a.Keys == da.Keys == {} && b.Keys == db.Keys == {};
      assert Amounts(SumExtra(a, b)) == map[];
    } else {
      assert TakeDict(PutDict(da)).value.0 == da && TakeDict(PutDict(db)).value.0 == db;
    }
  }

  lemma GramsSumFits(x: nat, y: nat)
    requires GramsFit(x) && GramsFit(y)
    ensures x + y < W * W
  {
    assert Pow2(4) == 16;
    PutFits(x, 4, 15);
    PutFits(y, 4, 15);
    TwiceBelow(8 * 15, 127);
  }

  lemma TwiceBelow(a: nat, b: nat)
    requires a <= b && b == 127
    ensures 2 * Pow2(a) <= W * W
  {
    Pow2Of64();
    Pow2Add(64, 64);
    Pow2Grows(a, b);
    assert Pow2(b + 1) == 2 * Pow2(b);
  }

  /** Adding two stored collections stores their sum, and fails exactly when the sum cannot be stored. */
  lemma SlicesAdd(c: Collection, d: Collection)
    requires Fits(c) && Fits(d) && Positive(c.extra) && Positive(d.extra)
    ensures AddSlices(Encoded(c), Encoded(d)) == if Fits(Sum(c, d)) then Some(Encoded(Sum(c, d))) else None
  {
    var (le, re) := (PutDict(Amounts(c.extra)), PutDict(Amounts(d.extra)));
    GramsAdd(c.grams, d.grams, le.bits, re.bits);
    RestAdds(c, d, Encoded(c), Encoded(d));
  }

  lemma RestAdds(c: Collection, d: Collection, l: Slice, r: Slice)
    requires FitsExtra(c.extra) && FitsExtra(d.extra) && Positive(c.extra) && Positive(d.extra)
    requires l.refs == PutDict(Amounts(c.extra)).refs && r.refs == PutDict(Amounts(d.extra)).refs
    requires AddGrams(l.bits, r.bits) ==
             if GramsFit(c.grams + d.grams)
             then Some((EncodedGrams(c.grams + d.grams), PutDict(Amounts(c.extra)).bits, PutDict(Amounts(d.extra)).bits)) else None
    ensures AddSlices(l, r) == if Fits(Sum(c, d)) then Some(Encoded(Sum(c, d))) else None
  {
    var (gs, es) := (c.grams + d.grams, SumExtra(c.extra, d.extra));
    ExtrasAdd(c.extra, d.extra);
    SumEncoded(c, d);
    SlicesAre(l, r, PutDict(Amounts(c.extra)), PutDict(Amounts(d.extra)), GramsFit(gs), EncodedGrams(gs), FitsExtra(es), PutDict(Amounts(es)),
              if Fits(Sum(c, d)) then Some(Encoded(Sum(c, d))) else None);
  }

  lemma SumEncoded(c: Collection, d: Collection)
    ensures var (gs, es) := (c.grams + d.grams, SumExtra(c.extra, d.extra));
            (if Fits(Sum(c, d)) then Some(Encoded(Sum(c, d))) else None) ==
            if GramsFit(gs) && FitsExtra(es) then Some(Slice(EncodedGrams(gs) + PutDict(Amounts(es)).bits, PutDict(Amounts(es)).refs)) else None
  {
  }

  lemma SlicesAre(l: Slice, r: Slice, le: Slice, re: Slice, gramsFit: bool, grams: seq<bool>, extraFits: bool, extra: Slice, sum: Option<Slice>)
    requires AddGrams(l.bits, r.bits) == (if gramsFit then Some((grams, le.bits, re.bits)) else None) && l.refs == le.refs && r.refs == re.refs
    requires AddExtras(le, re) == if extraFits then Some(extra) else None
    requires sum == if gramsFit && extraFits then Some(Slice(grams + extra.bits, extra.refs)) else None
    ensures AddSlices(l, r) == sum
  {
    assert Slice(le.bits, le.refs) == le && Slice(re.bits, re.refs) == re;
  }

  lemma WordsAdd(g: U128, h: U128)
    requires GramsFit(g.Value()) && GramsFit(h.Value())
    ensures g.Add(h).1 && StoreGrams(g.Add(h).0) == Put(g.Value() + h.Value(), 4)
  {
    GramsSumFits(g.Value(), h.Value());
    StoreGramsIs(g.Add(h).0);
  }

  lemma AddGramsIs(l: seq<bool>, r: seq<bool>, lg: (U128, seq<bool>), rg: (U128, seq<bool>), sum: Option<seq<bool>>)
    requires LoadGrams(l) == Some(lg) && LoadGrams(r) == Some(rg) && lg.0.Add(rg.0).1 && StoreGrams(lg.0.Add(rg.0).0) == sum
    ensures AddGrams(l, r) == if sum.None? then None else Some((sum.value, lg.1, rg.1))
  {
  }

  lemma GramsAdd(x: nat, y: nat, l: seq<bool>, r: seq<bool>)
    requires GramsFit(x) && GramsFit(y)
    ensures AddGrams(EncodedGrams(x) + l, EncodedGrams(y) + r) == if GramsFit(x + y) then Some((EncodedGrams(x + y), l, r)) else None
  {
    var lg := ReadGrams(x, l);
    var rg := ReadGrams(y, r);
    ReadGramsAdd(EncodedGrams(x) + l, EncodedGrams(y) + r, x, y, lg, rg, l, r);
  }

  lemma ReadGramsAdd(a: seq<bool>, b: seq<bool>, x: nat, y: nat, lg: U128, rg: U128, l: seq<bool>, r: seq<bool>)
    requires GramsFit(x) && GramsFit(y) && lg.Value() == x && rg.Value() == y
    requires LoadGrams(a) == Some((lg, l)) && LoadGrams(b) == Some((rg, r))
    ensures AddGrams(a, b) == if GramsFit(x + y) then Some((EncodedGrams(x + y), l, r)) else None
  {
    WordsAdd(lg, rg);
    AddGramsIs(a, b, (lg, l), (rg, r), Put(x + y, 4));
  }

  lemma ReadGrams(v: nat, rest: seq<bool>) returns (g: U128)
    requires GramsFit(v)
    ensures LoadGrams(EncodedGrams(v) + rest) == Some((g, rest)) && g.Value() == v
  {
    EncodedGramsRead(v, rest);
    g := LoadGrams(EncodedGrams(v) + rest).value.0;
  }

  // ---- Sums over trees ----

  const MAX_SPLIT_DEPTH: nat := 30

  /** The extra that a dictionary of accounts carries at a node: the largest split depth below it, and the money. */
  ghost function CombineExtra(l: Slice, r: Slice): Option<Slice> {
    if |l.bits| < 5 || |r.bits| < 5 then None
    else
      var (d1, d2) := (Nat(l.bits[..5]), Nat(r.bits[..5]));
      if d1 > MAX_SPLIT_DEPTH || d2 > MAX_SPLIT_DEPTH then None
      else
        var sum :- AddSlices(Slice(l.bits[5..], l.refs), Slice(r.bits[5..], r.refs));
        Some(Slice(UintBits(Max(d1, d2), 5) + sum.bits, sum.refs))
  }

  function Max(a: nat, b: nat): nat {
    if b > a then b else a
  }

  function Extra(depth: nat, c: Collection): Slice {
    Slice(UintBits(depth, 5) + Encoded(c).bits, Encoded(c).refs)
  }

  lemma DepthReads(depth: nat, c: Collection)
    requires depth <= MAX_SPLIT_DEPTH
    ensures var s := Extra(depth, c);
            |s.bits| >= 5 && Nat(s.bits[..5]) == depth && Slice(s.bits[5..], s.refs) == Encoded(c)
  {
    assert Pow2(5) == 32;
    NatOfBits(depth, 5);
    assert Extra(depth, c).bits[..5] == UintBits(depth, 5);
    assert Extra(depth, c).bits[5..] == Encoded(c).bits;
  }

  /** A split depth above thirty is refused on either side, and so is an amount of zero in a dictionary that both sides have. */
  lemma BadExtrasRefused(l: Slice, r: Slice, x: seq<bool>, y: seq<bool>)
    ensures |l.bits| >= 5 && Nat(l.bits[..5]) > 30 ==> CombineExtra(l, r).None?
    ensures |r.bits| >= 5 && Nat(r.bits[..5]) > 30 ==> CombineExtra(l, r).None?
    ensures |l.bits| < 5 || |r.bits| < 5 ==> CombineExtra(l, r).None?
    ensures (Take(5, x).Some? && Take(5, x).value.0 == 0) || (Take(5, y).Some? && Take(5, y).value.0 == 0) ==> AddValues(x, y).None?
    ensures Take(5, x).None? || Take(5, y).None? ==> AddValues(x, y).None?
  {
  }

  lemma ExtrasCombine(d1: nat, c1: Collection, d2: nat, c2: Collection)
    requires d1 <= MAX_SPLIT_DEPTH && d2 <= MAX_SPLIT_DEPTH
    requires Fits(c1) && Fits(c2) && Positive(c1.extra) && Positive(c2.extra)
    ensures CombineExtra(Extra(d1, c1), Extra(d2, c2)) == if Fits(Sum(c1, c2)) then Some(Extra(Max(d1, d2), Sum(c1, c2))) else None
  {
    DepthReads(d1, c1);
    DepthReads(d2, c2);
    SlicesAdd(c1, c2);
  }

  datatype Tree = Leaf(depth: nat, money: Collection) | Fork(left: Tree, right: Tree)

  ghost function Fold(t: Tree): Option<Slice> {
    match t
    case Leaf(depth, money) => Some(Extra(depth, money))
    case Fork(left, right) =>
      var l :- Fold(left);
      var r :- Fold(right);
      CombineExtra(l, r)
  }

  ghost predicate GoodLeaves(t: Tree) {
    match t
    case Leaf(depth, money) => depth <= MAX_SPLIT_DEPTH && Fits(money) && Positive(money.extra)
    case Fork(left, right) => GoodLeaves(left) && GoodLeaves(right)
  }

  function Total(t: Tree): Collection {
    match t
    case Leaf(_, money) => money
    case Fork(left, right) => Sum(Total(left), Total(right))
  }

  function Deepest(t: Tree): nat {
    match t
    case Leaf(depth, _) => depth
    case Fork(left, right) => Max(Deepest(left), Deepest(right))
  }

  lemma PositiveSum(c: Collection, d: Collection)
    requires Positive(c.extra) && Positive(d.extra)
    ensures Positive(Sum(c, d).extra)
  {
  }

  /** A sum that fits has summands that fit. */
  lemma SummandsFit(c: Collection, d: Collection)
    requires Fits(Sum(c, d))
    ensures Fits(c) && Fits(d)
  {
    SmallerFits(c.grams, c.grams + d.grams, 4);
    SmallerFits(d.grams, c.grams + d.grams, 4);
    var s := SumExtra(c.extra, d.extra);
    forall k | k in c.extra
      ensures AmountFits(c.extra[k])
    {
      SmallerFits(c.extra[k], s[k], 5);
    }
    forall k | k in d.extra
      ensures AmountFits(d.extra[k])
    {
      SmallerFits(d.extra[k], s[k], 5);
    }
  }

  lemma {:induction false} TotalIsPositive(t: Tree)
    requires GoodLeaves(t)
    ensures Positive(Total(t).extra) && Deepest(t) <= MAX_SPLIT_DEPTH
  {
    if t.Fork? {
      TotalIsPositive(t.left);
      TotalIsPositive(t.right);
      PositiveSum(Total(t.left), Total(t.right));
    }
  }

  /** Folding a tree of canonical leaves stores the total of its money and its largest depth, and fails exactly when the total
      cannot be stored. */
  lemma {:induction false} FoldIsTotal(t: Tree)
    requires GoodLeaves(t)
    ensures Fold(t) == if Fits(Total(t)) then Some(Extra(Deepest(t), Total(t))) else None
  {
    if t.Fork? {
      FoldIsTotal(t.left);
      FoldIsTotal(t.right);
      TotalIsPositive(t.left);
      TotalIsPositive(t.right);
      var (l, r) := (Total(t.left), Total(t.right));
      if Fits(l) && Fits(r) {
        ExtrasCombine(Deepest(t.left), l, Deepest(t.right), r);
      } else if Fits(Sum(l, r)) {
        SummandsFit(l, r);
      }
    }
  }

  function Leaves(t: Tree): seq<(nat, Collection)> {
    match t
    case Leaf(depth, money) => [(depth, money)]
    case Fork(left, right) => Leaves(left) + Leaves(right)
  }

  function SumAll(ls: seq<(nat, Collection)>): Collection {
    if ls == [] then Collection(0, map[]) else Sum(SumAll(ls[..|ls| - 1]), ls[|ls| - 1].1)
  }

  function DeepestOf(ls: seq<(nat, Collection)>): nat {
    if ls == [] then 0 else Max(DeepestOf(ls[..|ls| - 1]), ls[|ls| - 1].0)
  }

  lemma SumAssoc(a: Collection, b: Collection, c: Collection)
    ensures Sum(Sum(a, b), c) == Sum(a, Sum(b, c))
  {
    assert Sum(Sum(a, b), c).extra == Sum(a, Sum(b, c)).extra;
  }

  lemma SumZero(c: Collection)
    ensures Sum(Collection(0, map[]), c) == c && Sum(c, Collection(0, map[])) == c
  {
    assert Sum(Collection(0, map[]), c).extra == c.extra;
    assert Sum(c, Collection(0, map[])).extra == c.extra;
  }

  lemma {:induction false} SumAllOfTwo(a: seq<(nat, Collection)>, b: seq<(nat, Collection)>)
    ensures SumAll(a + b) == Sum(SumAll(a), SumAll(b))
    decreases |b|
  {
    if b == [] {
      assert a + b == a;
      SumZero(SumAll(a));
    } else {
      var (front, last) := (b[..|b| - 1], b[|b| - 1]);
      SumAllOfTwo(a, front);
      assert (a + b)[..|a + b| - 1] == a + front;
      SumAssoc(SumAll(a), SumAll(front), last.1);
    }
  }

  lemma {:induction false} DeepestOfTwo(a: seq<(nat, Collection)>, b: seq<(nat, Collection)>)
    ensures DeepestOf(a + b) == Max(DeepestOf(a), DeepestOf(b))
    decreases |b|
  {
    if b == [] {
      assert a + b == a;
    } else {
      DeepestOfTwo(a, b[..|b| - 1]);
      assert (a + b)[..|a + b| - 1] == a + b[..|b| - 1];
    }
  }

  lemma {:induction false} TotalIsSumOfLeaves(t: Tree)
    ensures Total(t) == SumAll(Leaves(t)) && Deepest(t) == DeepestOf(Leaves(t))
  {
    if t.Leaf? {
      assert Leaves(t)[..0] == [];
      SumZero(t.money);
    } else {
      TotalIsSumOfLeaves(t.left);
      TotalIsSumOfLeaves(t.right);
      SumAllOfTwo(Leaves(t.left), Leaves(t.right));
      DeepestOfTwo(Leaves(t.left), Leaves(t.right));
    }
  }

  /** The shape of the tree does not matter. */
  lemma SameLeavesSameFold(t: Tree, u: Tree)
    requires GoodLeaves(t) && GoodLeaves(u) && Leaves(t) == Leaves(u)
    ensures Fold(t) == Fold(u)
  {
    FoldIsTotal(t);
    FoldIsTotal(u);
    TotalIsSumOfLeaves(t);
    TotalIsSumOfLeaves(u);
  }
}
