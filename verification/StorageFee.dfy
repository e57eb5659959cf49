/** Storage fees (tlb/config_prices.go, tlb/blockchain_config.go): price windows charged in fixed-width arithmetic that widens when
    it has to, against the plain sum over every second owed. */
module StorageFee {
  import opened Options
  import opened Powers
  import opened Sorting
  import opened U128s

  const TWO32: int := 0x1_0000_0000

  type U32 = x: int | 0 <= x < TWO32 witness 0

  datatype Prices = Prices(validSince: U32, bitPrice: U64, cellPrice: U64, mcBitPrice: U64, mcCellPrice: U64)

  /** What is stored and where. */
  datatype Usage = Usage(masterchain: bool, bits: U64, cells: U64)

  function PricesFor(c: Prices, masterchain: bool): (U64, U64) {
    if masterchain then (c.mcBitPrice, c.mcCellPrice) else (c.bitPrice, c.cellPrice)
  }

  /** The price of one second, in units of 2^-16. */
  function Rate(c: Prices, u: Usage): nat {
    var (bitPrice, cellPrice) := PricesFor(c, u.masterchain);
    RatesAreNat(u, bitPrice, cellPrice);
    u.cells * cellPrice + u.bits * bitPrice
  }

  lemma RatesAreNat(u: Usage, bitPrice: U64, cellPrice: U64)
    ensures 0 <= u.cells * cellPrice && 0 <= u.bits * bitPrice
  {
  }

  /** The raw fee of one window, if it fits 128 bits. */
  function RawFixed(c: Prices, u: Usage, delta: U32): (r: (U128, bool))
    ensures r.1 ==> r.0.Value() == Rate(c, u) * delta
    ensures r.1 && !u.masterchain ==> r.0.Value() == (u.bits * c.bitPrice + u.cells * c.cellPrice) * delta
    ensures r.1 && u.masterchain ==> r.0.Value() == (u.bits * c.mcBitPrice + u.cells * c.mcCellPrice) * delta
    ensures Rate(c, u) * delta < W * W && Rate(c, u) < W * W ==> r.1
  {
    var (bitPrice, cellPrice) := PricesFor(c, u.masterchain);
    var (total, fits) := Product(u.cells, cellPrice).Add(Product(u.bits, bitPrice));
    if !fits then (U128(0, 0), false)
    else total.Mul64(delta)
  }

  /** A basechain account pays the basechain prices of an entry, a masterchain account the masterchain ones. */
  lemma RateIs(c: Prices, u: Usage)
    ensures !u.masterchain ==> Rate(c, u) == u.bits * c.bitPrice + u.cells * c.cellPrice
    ensures u.masterchain ==> Rate(c, u) == u.bits * c.mcBitPrice + u.cells * c.mcCellPrice
  {
  }

  /** Rounds a fee up to whole units. */
  function Rounded(raw: nat): nat {
    Ceil(raw, 0x1_0000)
  }

  lemma Pow2Of16()
    ensures Pow2(16) == 0x1_0000
  {
    assert Pow2(2) == 4;
    Pow2Double(2, 4);
    Pow2Double(4, 16);
    Pow2Double(8, 0x100);
  }

  /** The fee of one price entry over `delta` seconds: exact whether or not it fits 128 bits. */
  function ComputeFee(c: Prices, u: Usage, delta: U32): (fee: nat)
    ensures fee == Rounded(Rate(c, u) * delta)
    ensures !u.masterchain ==> RoundedUp(fee, (u.bits * c.bitPrice + u.cells * c.cellPrice) * delta)
    ensures u.masterchain ==> RoundedUp(fee, (u.bits * c.mcBitPrice + u.cells * c.mcCellPrice) * delta)
  {
    RateIs(c, u);
    RoundedIs(Rate(c, u) * delta);
    var (total, fits) := RawFixed(c, u, delta);
    Pow2Of16();
    if fits then total.CeilShr(16).Value() else Ceil(Rate(c, u) * delta, 0x1_0000)
  }

  ghost predicate Sorted(es: seq<Prices>) {
    forall i, j :: 0 <= i < j < |es| ==> es[i].validSince <= es[j].validSince
  }

  /** What second `t` costs: the latest entry in force, and nothing before the first. */
  function RateAt(es: seq<Prices>, u: Usage, t: nat): nat {
    if es == [] then 0
    else if es[|es| - 1].validSince <= t then Rate(es[|es| - 1], u)
    else RateAt(es[..|es| - 1], u, t)
  }

  /** The plain sum over the seconds from `a` to `b`. */
  function Owed(es: seq<Prices>, u: Usage, a: nat, b: nat): nat
    decreases b
  {
    if b <= a then 0 else Owed(es, u, a, b - 1) + RateAt(es, u, b - 1)
  }

  lemma {:induction false} RateInWindow(es: seq<Prices>, u: Usage, i: nat, t: nat)
    requires Sorted(es) && i < |es| && es[i].validSince <= t && (i + 1 < |es| ==> t < es[i + 1].validSince)
    ensures RateAt(es, u, t) == Rate(es[i], u)
  {
    if i + 1 < |es| {
      RateInWindow(es[..|es| - 1], u, i, t);
    }
  }

  lemma {:induction false} RateBeforeAll(es: seq<Prices>, u: Usage, t: nat)
    requires Sorted(es) && (es != [] ==> t < es[0].validSince)
    ensures RateAt(es, u, t) == 0
  {
    if es != [] {
      RateBeforeAll(es[..|es| - 1], u, t);
    }
  }

  lemma OneMore(rate: nat, n: nat)
    ensures rate * (n + 1) == rate * n + rate
  {
  }

  /** A stretch of equal seconds costs its length times one of them. */
  lemma {:induction false} OwedInWindow(es: seq<Prices>, u: Usage, from: nat, a: nat, b: nat, rate: nat)
    requires from <= a <= b && forall t :: a <= t < b ==> RateAt(es, u, t) == rate
    ensures Owed(es, u, from, b) == Owed(es, u, from, a) + rate * (b - a)
    decreases b
  {
    if a < b {
      OwedInWindow(es, u, from, a, b - 1, rate);
      OneMore(rate, b - 1 - a);
    }
  }

  /** A fee still in fixed width, or already widened. */
  ghost predicate Holds(fixed: U128, wide: Option<nat>, raw: nat) {
    match wide
    case None => fixed.Value() == raw
    case Some(w) => w == raw
  }

  /** Adds one window to the running fee. */
  method AddWindow(c: Prices, u: Usage, delta: U32, fixed: U128, wide: Option<nat>, ghost raw: nat)
    returns (fixed': U128, wide': Option<nat>)
    requires Holds(fixed, wide, raw)
    ensures Holds(fixed', wide', raw + Rate(c, u) * delta)
  {
    fixed', wide' := fixed, wide;
    if wide.None? {
      var (part, fits) := RawFixed(c, u, delta);
      if fits {
        var (sum, fitsToo) := fixed.Add(part);
        if fitsToo {
          fixed' := sum;
          return;
        }
      }
      wide' := Some(fixed.Value());
    }
    wide' := Some(wide'.value + Rate(c, u) * delta);
  }

  /** The entry in force at `t`, or the first one. */
  method FindEntry(es: seq<Prices>, t: U32) returns (i: nat)
    requires es != [] && Sorted(es)
    ensures i < |es| && (es[0].validSince <= t ==> es[i].validSince <= t) && (t < es[0].validSince ==> i == 0)
    ensures i + 1 < |es| ==> t < es[i + 1].validSince || i == 0
    ensures forall k :: i < k < |es| ==> t < es[k].validSince
  {
    i := |es|;
    while i > 0 && es[i - 1].validSince > t
      invariant 0 <= i <= |es| && forall k :: i <= k < |es| ==> t < es[k].validSince
    {
      i := i - 1;
    }
    if i > 0 {
      i := i - 1;
    }
  }

  /** The storage fee owed at `now` since `lastPaid`. */
  method ComputeStorageFee(es: seq<Prices>, u: Usage, lastPaid: U32, now: U32) returns (fee: nat)
    requires Sorted(es)
    ensures fee == Charge(es, u, lastPaid, now)
  {
    if now <= lastPaid || lastPaid == 0 {
      return 0;
    }
    if |es| == 0 || now <= es[0].validSince {
      NothingYet(es, u, lastPaid, now);
      return 0;
    }
    var i: nat := FindEntry(es, lastPaid);
    var upto := if es[0].validSince > lastPaid then es[0].validSince else lastPaid;
    NothingYet(es, u, lastPaid, upto);
    var fixed, wide := U128(0, 0), None;
    while i < |es| && upto < now
      invariant lastPaid <= upto <= now && i <= |es|
      invariant i < |es| && upto < now ==> es[i].validSince <= upto
      invariant i == |es| ==> upto == now
      invariant Holds(fixed, wide, Owed(es, u, lastPaid, upto))
    {
      var validUntil := if i < |es| - 1 && es[i + 1].validSince < now then es[i + 1].validSince else now;
      if upto < validUntil {
        forall t: nat | upto <= t < validUntil
          ensures RateAt(es, u, t) == Rate(es[i], u)
        {
          RateInWindow(es, u, i, t);
        }
        OwedInWindow(es, u, lastPaid, upto, validUntil, Rate(es[i], u));
        fixed, wide := AddWindow(es[i], u, validUntil - upto, fixed, wide, Owed(es, u, lastPaid, upto));
        upto := validUntil;
      }
      i := i + 1;
    }
    Pow2Of16();
    if wide.None? {
      return fixed.CeilShr(16).Value();
    }
    return Ceil(wide.value, 0x1_0000);
  }

  predicate BySince(a: Prices, b: Prices) {
    a.validSince <= b.validSince
  }

  /** The same from the entries of the configuration, which come in any order and are sorted first. */
  method ComputeStorageFeeOf(entries: seq<Prices>, u: Usage, lastPaid: U32, now: U32) returns (fee: nat, es: seq<Prices>)
    ensures Ordered(es, BySince) && SameElements(es, entries) && fee == Charge(es, u, lastPaid, now)
  {
    es := Sort(entries, BySince);
    forall i, j | 0 <= i < j < |es|
      ensures es[i].validSince <= es[j].validSince
    {
      assert BySince(es[i], es[j]);
    }
    fee := ComputeStorageFee(es, u, lastPaid, now);
  }

  /** What an account owes: the seconds summed and rounded up once. An account that never paid owes nothing. */
  function Charge(es: seq<Prices>, u: Usage, lastPaid: nat, now: nat): nat {
    if lastPaid == 0 then 0 else Rounded(Owed(es, u, lastPaid, now))
  }

  /** Before the first entry is in force nothing is owed. */
  lemma NothingYet(es: seq<Prices>, u: Usage, a: nat, b: nat)
    requires Sorted(es) && (es != [] ==> b <= a || b <= es[0].validSince)
    ensures Owed(es, u, a, b) == 0
  {
    if a < b {
      forall t: nat | a <= t < b
        ensures RateAt(es, u, t) == 0
      {
        RateBeforeAll(es, u, t);
      }
      OwedInWindow(es, u, a, a, b, 0);
    }
  }

  lemma {:induction false} OwedSplits(es: seq<Prices>, u: Usage, a: nat, b: nat, c: nat)
    requires a <= b <= c
    ensures Owed(es, u, a, c) == Owed(es, u, a, b) + Owed(es, u, b, c)
    decreases c
  {
    if b < c {
      OwedSplits(es, u, a, b, c - 1);
    }
  }

  /** Paying in two instalments costs the same, or one unit more for the second rounding. */
  lemma InstalmentsCostAtMostOneMore(es: seq<Prices>, u: Usage, a: nat, b: nat, c: nat)
    requires 0 < a <= b <= c
    ensures var parts, whole := Charge(es, u, a, b) + Charge(es, u, b, c), Charge(es, u, a, c);
            parts == whole || parts == whole + 1
  {
    OwedSplits(es, u, a, b, c);
  }

  /** The least whole number of units that is not below the raw fee. */
  ghost predicate RoundedUp(fee: nat, raw: int) {
    0x1_0000 * fee >= raw && 0x1_0000 * fee < raw + 0x1_0000
  }

  lemma RoundedIs(raw: nat)
    ensures RoundedUp(Rounded(raw), raw)
  {
  }

  /** The fee in the fields of the entries, while one entry is in force from `lastPaid` to `now`. */
  lemma ChargeInOneWindow(es: seq<Prices>, i: nat, u: Usage, lastPaid: nat, now: nat)
    requires Sorted(es) && i < |es| && es[i].validSince <= lastPaid && (i + 1 < |es| ==> now <= es[i + 1].validSince)
    requires 0 < lastPaid <= now
    ensures !u.masterchain ==>
              RoundedUp(Charge(es, u, lastPaid, now), (u.bits * es[i].bitPrice + u.cells * es[i].cellPrice) * (now - lastPaid))
    ensures u.masterchain ==>
              RoundedUp(Charge(es, u, lastPaid, now), (u.bits * es[i].mcBitPrice + u.cells * es[i].mcCellPrice) * (now - lastPaid))
  {
    forall t: nat | lastPaid <= t < now
      ensures RateAt(es, u, t) == Rate(es[i], u)
    {
      RateInWindow(es, u, i, t);
    }
    OwedInWindow(es, u, lastPaid, lastPaid, now, Rate(es[i], u));
    RoundedIs(Rate(es[i], u) * (now - lastPaid));
    RateIs(es[i], u);
  }

  /** What is owed before the first entry, and by an account that never paid. */
  lemma NothingCharged(es: seq<Prices>, u: Usage, lastPaid: nat, now: nat)
    requires Sorted(es) && (lastPaid == 0 || now <= lastPaid || es == [] || now <= es[0].validSince)
    ensures Charge(es, u, lastPaid, now) == 0
  {
    if lastPaid > 0 {
      NothingYet(es, u, lastPaid, now);
    }
  }

  /** The entries agree in everything a chain's accounts pay by. */
  ghost predicate AgreeFor(es: seq<Prices>, fs: seq<Prices>, masterchain: bool) {
    |es| == |fs| && forall i :: 0 <= i < |es| ==>
      && es[i].validSince == fs[i].validSince
      && (if masterchain then es[i].mcBitPrice == fs[i].mcBitPrice && es[i].mcCellPrice == fs[i].mcCellPrice
          else es[i].bitPrice == fs[i].bitPrice && es[i].cellPrice == fs[i].cellPrice)
  }

  lemma {:induction false} SameRateAt(es: seq<Prices>, fs: seq<Prices>, u: Usage, t: nat)
    requires AgreeFor(es, fs, u.masterchain)
    ensures RateAt(es, u, t) == RateAt(fs, u, t)
  {
    if es != [] && es[|es| - 1].validSince > t {
      SameRateAt(es[..|es| - 1], fs[..|fs| - 1], u, t);
    }
  }

  lemma {:induction false} SameOwed(es: seq<Prices>, fs: seq<Prices>, u: Usage, a: nat, b: nat)
    requires AgreeFor(es, fs, u.masterchain)
    ensures Owed(es, u, a, b) == Owed(fs, u, a, b)
    decreases b
  {
    if a < b {
      SameOwed(es, fs, u, a, b - 1);
      SameRateAt(es, fs, u, b - 1);
    }
  }

  /** The prices of one chain do not touch the accounts of the other. */
  lemma OtherChainDoesNotMatter(es: seq<Prices>, fs: seq<Prices>, u: Usage, lastPaid: nat, now: nat)
    requires AgreeFor(es, fs, u.masterchain)
    ensures Charge(es, u, lastPaid, now) == Charge(fs, u, lastPaid, now)
  {
    SameOwed(es, fs, u, lastPaid, now);
  }
}
