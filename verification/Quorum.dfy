/** Checking a block's signatures against its validators (ton/proof.go), with 64-bit weights that wrap. */
module Quorum {
  import opened Sorting
  import opened U128s

  datatype Validator = Validator(key: nat, weight: U64)

  datatype Signature = Signature(nodeId: nat, signature: nat)

  /** Key ids and signature verification over the payload, as given functions. */
  datatype Scheme = Scheme(keyId: nat -> nat, verify: (nat, nat) -> bool)

  /** The validator a key id stands for; of several with the same id the last one counts. */
  function Find(c: Scheme, vs: seq<Validator>, id: nat): (i: int)
    ensures -1 <= i < |vs|
    ensures i >= 0 ==> c.keyId(vs[i].key) == id
  {
    if vs == [] then -1
    else if c.keyId(vs[|vs| - 1].key) == id then |vs| - 1
    else Find(c, vs[..|vs| - 1], id)
  }

  function Total(vs: seq<Validator>): nat {
    if vs == [] then 0 else Total(vs[..|vs| - 1]) + vs[|vs| - 1].weight
  }

  predicate Holds(c: Scheme, vs: seq<Validator>, s: Signature) {
    var i := Find(c, vs, s.nodeId);
    i >= 0 && c.verify(vs[i].key, s.signature)
  }

  /** What the signature loop leaves of `sigs` after `prev`, from `signed` on: nothing if a signature is refused. */
  function Tally(c: Scheme, vs: seq<Validator>, sigs: seq<Signature>, i: nat, signed: U64): (int)
    requires i <= |sigs|
    decreases |sigs| - i
  {
    if i == |sigs| then signed
    else if i > 0 && sigs[i - 1].nodeId == sigs[i].nodeId then -1
    else if !Holds(c, vs, sigs[i]) then -1
    else
      var signed' := (signed + vs[Find(c, vs, sigs[i].nodeId)].weight) % W;
      if signed' > Total(vs) % W then signed' else Tally(c, vs, sigs, i + 1, signed')
  }

  predicate Accepts(c: Scheme, vs: seq<Validator>, sigs: seq<Signature>, hashMatches: bool) {
    && sigs != [] && vs != [] && hashMatches
    && var signed := Tally(c, vs, sigs, 0, 0);
    signed >= 0 && 3 * signed % W > 2 * (Total(vs) % W) % W
  }

  predicate ById(a: Signature, b: Signature) {
    a.nodeId <= b.nodeId
  }

  /** The weight of a set of key ids. */
  function Weight(c: Scheme, vs: seq<Validator>, ids: set<nat>): nat {
    if vs == [] then 0
    else
      var last := vs[|vs| - 1];
      var id := c.keyId(last.key);
      (if id in ids then last.weight else 0) + Weight(c, vs[..|vs| - 1], ids - {id})
  }

  ghost function Signers(sigs: seq<Signature>, n: nat): set<nat>
    requires n <= |sigs|
  {
    set i | 0 <= i < n :: sigs[i].nodeId
  }

  lemma {:induction false} WeightWithinTotal(c: Scheme, vs: seq<Validator>, ids: set<nat>)
    ensures Weight(c, vs, ids) <= Total(vs)
  {
    if vs != [] {
      WeightWithinTotal(c, vs[..|vs| - 1], ids - {c.keyId(vs[|vs| - 1].key)});
    }
  }

  /** One more known signer adds its weight. */
  lemma {:induction false} WeightAdds(c: Scheme, vs: seq<Validator>, ids: set<nat>, id: nat)
    requires id !in ids && Find(c, vs, id) >= 0
    ensures Weight(c, vs, ids + {id}) == Weight(c, vs, ids) + vs[Find(c, vs, id)].weight
  {
    var front, last := vs[..|vs| - 1], c.keyId(vs[|vs| - 1].key);
    if last == id {
      assert ids + {id} - {last} == ids - {last};
    } else {
      assert ids + {id} - {last} == ids - {last} + {id};
      WeightAdds(c, front, ids - {last}, id);
    }
  }

  lemma {:induction false} WeightOfUnion(c: Scheme, vs: seq<Validator>, a: set<nat>, b: set<nat>)
    ensures Weight(c, vs, a) + Weight(c, vs, b) == Weight(c, vs, a + b) + Weight(c, vs, a * b)
  {
    if vs != [] {
      var last := c.keyId(vs[|vs| - 1].key);
      WeightOfUnion(c, vs[..|vs| - 1], a - {last}, b - {last});
      assert a + b - {last} == (a - {last}) + (b - {last});
      assert a * b - {last} == (a - {last}) * (b - {last});
    }
  }

  lemma NoSigners(c: Scheme, vs: seq<Validator>)
    ensures Weight(c, vs, {}) == 0
  {
    if vs != [] {
      assert {} - {c.keyId(vs[|vs| - 1].key)} == {};
      NoSigners(c, vs[..|vs| - 1]);
    }
  }

  /** The first `n` signatures are valid and by different validators. */
  ghost predicate Clean(c: Scheme, vs: seq<Validator>, sigs: seq<Signature>, n: nat)
    requires n <= |sigs|
  {
    && (forall i :: 0 <= i < n ==> Holds(c, vs, sigs[i]))
    && (forall i, j :: 0 <= i < j < n ==> sigs[i].nodeId != sigs[j].nodeId)
  }

  /** A signature whose neighbour differs is by a validator not seen before. */
  lemma NewSigner(sigs: seq<Signature>, i: nat)
    requires Ordered(sigs, ById) && i < |sigs| && (i > 0 ==> sigs[i - 1].nodeId != sigs[i].nodeId)
    ensures forall k :: 0 <= k < i ==> sigs[k].nodeId < sigs[i].nodeId
    ensures Signers(sigs, i + 1) == Signers(sigs, i) + {sigs[i].nodeId} && sigs[i].nodeId !in Signers(sigs, i)
  {
    forall k | 0 <= k < i
      ensures sigs[k].nodeId < sigs[i].nodeId
    {
      assert ById(sigs[i - 1], sigs[i]);
      assert k < i - 1 ==> ById(sigs[k], sigs[i - 1]);
    }
  }

  lemma SignerAdds(c: Scheme, vs: seq<Validator>, sigs: seq<Signature>, i: nat)
    requires Ordered(sigs, ById) && i < |sigs| && (i > 0 ==> sigs[i - 1].nodeId != sigs[i].nodeId)
    requires Holds(c, vs, sigs[i])
    ensures Weight(c, vs, Signers(sigs, i + 1)) == Weight(c, vs, Signers(sigs, i)) + vs[Find(c, vs, sigs[i].nodeId)].weight
    ensures Weight(c, vs, Signers(sigs, i + 1)) <= Total(vs)
  {
    NewSigner(sigs, i);
    WeightAdds(c, vs, Signers(sigs, i), sigs[i].nodeId);
    WeightWithinTotal(c, vs, Signers(sigs, i + 1));
  }

  /** The signature is by a validator of the set, valid, and not by the signer before. */
  predicate Counts(c: Scheme, vs: seq<Validator>, sigs: seq<Signature>, i: nat)
    requires i < |sigs|
  {
    Holds(c, vs, sigs[i]) && (i > 0 ==> sigs[i - 1].nodeId != sigs[i].nodeId)
  }

  lemma CleanMore(c: Scheme, vs: seq<Validator>, sigs: seq<Signature>, i: nat)
    requires Ordered(sigs, ById) && i < |sigs| && Clean(c, vs, sigs, i)
    ensures if Counts(c, vs, sigs, i) then Clean(c, vs, sigs, i + 1) else !Clean(c, vs, sigs, |sigs|)
  {
    if Counts(c, vs, sigs, i) {
      NewSigner(sigs, i);
    }
  }

  lemma TallyStep(c: Scheme, vs: seq<Validator>, sigs: seq<Signature>, i: nat, signed: U64)
    requires i < |sigs| && Total(vs) < W
    requires Counts(c, vs, sigs, i) ==> signed + vs[Find(c, vs, sigs[i].nodeId)].weight <= Total(vs)
    ensures !Counts(c, vs, sigs, i) ==> Tally(c, vs, sigs, i, signed) == -1
    ensures Counts(c, vs, sigs, i) ==>
              Tally(c, vs, sigs, i, signed) == Tally(c, vs, sigs, i + 1, signed + vs[Find(c, vs, sigs[i].nodeId)].weight)
  {
  }

  /** While the total weight stays below 2^64, the loop checks every signature and counts the signers' weight. */
  lemma {:induction false} TallyIs(c: Scheme, vs: seq<Validator>, sigs: seq<Signature>, i: nat, signed: U64)
    requires Ordered(sigs, ById) && i <= |sigs| && Total(vs) < W && Clean(c, vs, sigs, i)
    requires signed == Weight(c, vs, Signers(sigs, i))
    ensures Tally(c, vs, sigs, i, signed) >= 0 <==> Clean(c, vs, sigs, |sigs|)
    ensures Clean(c, vs, sigs, |sigs|) ==> Tally(c, vs, sigs, i, signed) == Weight(c, vs, Signers(sigs, |sigs|))
    decreases |sigs| - i
  {
    if i < |sigs| {
      CleanMore(c, vs, sigs, i);
      if Counts(c, vs, sigs, i) {
        SignerAdds(c, vs, sigs, i);
        hide Clean, Signers, Total, Weight, Ordered, Tally;
        TallyStep(c, vs, sigs, i, signed);
        TallyIs(c, vs, sigs, i + 1, signed + vs[Find(c, vs, sigs[i].nodeId)].weight);
      } else {
        TallyStep(c, vs, sigs, i, signed);
      }
    }
  }

  lemma ThreefoldFits(x: nat, total: nat)
    requires x <= total && 3 * total < W
    ensures 3 * x % W == 3 * x && 2 * (total % W) % W == 2 * total
  {
  }

  /** Validator `j` is the last one with the signer's key id, and its key verifies the signature. */
  ghost predicate SignedBy(c: Scheme, vs: seq<Validator>, s: Signature, j: int) {
    && 0 <= j < |vs| && c.keyId(vs[j].key) == s.nodeId && c.verify(vs[j].key, s.signature)
    && forall k :: j < k < |vs| ==> c.keyId(vs[k].key) != s.nodeId
  }

  ghost predicate Signed(c: Scheme, vs: seq<Validator>, s: Signature) {
    exists j :: SignedBy(c, vs, s, j)
  }

  /** Every signature is valid, and no two are by the same signer. */
  ghost predicate AllSigned(c: Scheme, vs: seq<Validator>, sigs: seq<Signature>) {
    && (forall i :: 0 <= i < |sigs| ==> Signed(c, vs, sigs[i]))
    && (forall i, j :: 0 <= i < j < |sigs| ==> sigs[i].nodeId != sigs[j].nodeId)
  }

  lemma {:induction false} FindIsLast(c: Scheme, vs: seq<Validator>, id: nat)
    ensures forall k :: Find(c, vs, id) < k < |vs| ==> c.keyId(vs[k].key) != id
  {
    if vs != [] && c.keyId(vs[|vs| - 1].key) != id {
      FindIsLast(c, vs[..|vs| - 1], id);
      assert forall k :: 0 <= k < |vs| - 1 ==> vs[..|vs| - 1][k] == vs[k];
    }
  }

  lemma HoldsIff(c: Scheme, vs: seq<Validator>, s: Signature)
    ensures Holds(c, vs, s) <==> Signed(c, vs, s)
  {
    FindIsLast(c, vs, s.nodeId);
    if Holds(c, vs, s) {
      assert SignedBy(c, vs, s, Find(c, vs, s.nodeId));
    }
    if Signed(c, vs, s) {
      var j :| SignedBy(c, vs, s, j);
      assert Find(c, vs, s.nodeId) == j;
    }
  }

  lemma CleanIff(c: Scheme, vs: seq<Validator>, sigs: seq<Signature>)
    ensures Clean(c, vs, sigs, |sigs|) <==> AllSigned(c, vs, sigs)
  {
    forall i | 0 <= i < |sigs|
      ensures Holds(c, vs, sigs[i]) <==> Signed(c, vs, sigs[i])
    {
      HoldsIff(c, vs, sigs[i]);
    }
  }

  /** With one validator for each key id, a valid signature is one that the key of that id verifies. */
  lemma SignedIff(c: Scheme, vs: seq<Validator>, s: Signature)
    requires forall j, k :: 0 <= j < k < |vs| ==> c.keyId(vs[j].key) != c.keyId(vs[k].key)
    ensures Signed(c, vs, s) <==> exists v :: v in vs && c.keyId(v.key) == s.nodeId && c.verify(v.key, s.signature)
  {
    if Signed(c, vs, s) {
      var j :| SignedBy(c, vs, s, j);
      assert vs[j] in vs;
    }
    if v :| v in vs && c.keyId(v.key) == s.nodeId && c.verify(v.key, s.signature) {
      var j :| 0 <= j < |vs| && vs[j] == v;
      assert SignedBy(c, vs, s, j);
    }
  }

  /** What acceptance means while three times the total weight fits 64 bits: every signature distinct, known and valid, and the
      signers strictly above two thirds. */
  lemma AcceptsIff(c: Scheme, vs: seq<Validator>, sigs: seq<Signature>, hashMatches: bool)
    requires Ordered(sigs, ById) && 3 * Total(vs) < W
    ensures Accepts(c, vs, sigs, hashMatches) <==>
            && sigs != [] && vs != [] && hashMatches && AllSigned(c, vs, sigs)
            && 3 * Weight(c, vs, Signers(sigs, |sigs|)) > 2 * Total(vs)
  {
    NoSigners(c, vs);
    assert Signers(sigs, 0) == {};
    TallyIs(c, vs, sigs, 0, 0);
    CleanIff(c, vs, sigs);
    WeightWithinTotal(c, vs, Signers(sigs, |sigs|));
    ThreefoldFits(Weight(c, vs, Signers(sigs, |sigs|)), Total(vs));
  }

  /** While the total weight fits 64 bits no signature of an accepted list goes unchecked. */
  lemma AcceptedAreSigned(c: Scheme, vs: seq<Validator>, sigs: seq<Signature>, hashMatches: bool)
    requires Ordered(sigs, ById) && Total(vs) < W && Accepts(c, vs, sigs, hashMatches)
    ensures AllSigned(c, vs, sigs)
  {
    NoSigners(c, vs);
    assert Signers(sigs, 0) == {};
    TallyIs(c, vs, sigs, 0, 0);
    CleanIff(c, vs, sigs);
  }

  /** At a total of exactly 2^64 the early stop lets a signature through that nobody made. */
  lemma UncheckedAtTheLimit(c: Scheme, v0: Validator, v1: Validator, s0: Signature, s1: Signature)
    requires v0.weight == 1 && v1.weight == W - 1 && c.keyId(v0.key) != c.keyId(v1.key)
    requires s0.nodeId == c.keyId(v0.key) && c.verify(v0.key, s0.signature)
    requires s0.nodeId < s1.nodeId && !c.verify(v1.key, s1.signature)
    ensures Total([v0, v1]) == W
    ensures Accepts(c, [v0, v1], [s0, s1], true) && !Signed(c, [v0, v1], s1)
  {
    assert [v0, v1][..1] == [v0] && [v0][..0] == [];
    assert Total([v0]) == 1;
    assert Find(c, [v0], s0.nodeId) == 0;
    assert Find(c, [v0, v1], s0.nodeId) == 0;
  }

  /** Below half of 2^64 a wrapping sum can only refuse: an accepted list is clean and its signers are strictly above two thirds. */
  lemma AcceptedIsTwoThirds(c: Scheme, vs: seq<Validator>, sigs: seq<Signature>, hashMatches: bool)
    requires Ordered(sigs, ById) && 2 * Total(vs) < W
    requires Accepts(c, vs, sigs, hashMatches)
    ensures AllSigned(c, vs, sigs) && 3 * Weight(c, vs, Signers(sigs, |sigs|)) > 2 * Total(vs)
  {
    NoSigners(c, vs);
    assert Signers(sigs, 0) == {};
    TallyIs(c, vs, sigs, 0, 0);
    CleanIff(c, vs, sigs);
    WrapsDown(Weight(c, vs, Signers(sigs, |sigs|)), Total(vs));
  }

  lemma WrapsDown(x: nat, total: nat)
    requires 2 * total < W
    ensures 3 * x % W <= 3 * x && 2 * (total % W) % W == 2 * total
  {
  }

  /** Two accepted signature lists share signers of more than a third of the weight, whatever they sign. */
  lemma QuorumsIntersect(c: Scheme, d: Scheme, vs: seq<Validator>, a: seq<Signature>, b: seq<Signature>)
    requires c.keyId == d.keyId
    requires Ordered(a, ById) && Ordered(b, ById) && 2 * Total(vs) < W
    requires Accepts(c, vs, a, true) && Accepts(d, vs, b, true)
    ensures 3 * Weight(c, vs, Signers(a, |a|) * Signers(b, |b|)) > Total(vs)
  {
    AcceptedIsTwoThirds(c, vs, a, true);
    AcceptedIsTwoThirds(d, vs, b, true);
    SameIdsSameWeight(c, d, vs, Signers(b, |b|));
    WeightOfUnion(c, vs, Signers(a, |a|), Signers(b, |b|));
    WeightWithinTotal(c, vs, Signers(a, |a|) + Signers(b, |b|));
  }

  lemma {:induction false} SameIdsSameWeight(c: Scheme, d: Scheme, vs: seq<Validator>, ids: set<nat>)
    requires c.keyId == d.keyId
    ensures Weight(c, vs, ids) == Weight(d, vs, ids)
  {
    if vs != [] {
      SameIdsSameWeight(c, d, vs[..|vs| - 1], ids - {c.keyId(vs[|vs| - 1].key)});
    }
  }

  /** Half of 2^64 is the bound for intersection: with two validators of weight 2^62 twice the total wraps to zero, and either
      one alone is enough. */
  lemma HalfBoundIsSharp(c: Scheme, v0: Validator, v1: Validator, s0: Signature, s1: Signature)
    requires v0.weight == W / 4 && v1.weight == W / 4 && c.keyId(v0.key) != c.keyId(v1.key)
    requires s0.nodeId == c.keyId(v0.key) && c.verify(v0.key, s0.signature)
    requires s1.nodeId == c.keyId(v1.key) && c.verify(v1.key, s1.signature)
    ensures 2 * Total([v0, v1]) == W
    ensures Accepts(c, [v0, v1], [s0], true) && Accepts(c, [v0, v1], [s1], true)
    ensures Signers([s0], 1) * Signers([s1], 1) == {}
  {
    assert [v0, v1][..1] == [v0] && [v0][..0] == [];
    assert Total([v0]) == W / 4;
    assert Find(c, [v0], s0.nodeId) == 0;
    assert Find(c, [v0, v1], s0.nodeId) == 0 && Find(c, [v0, v1], s1.nodeId) == 1;
  }

  /** A third of 2^64 is the bound for acceptance: one validator of the least weight above it signs alone, and its threefold
      weight wraps to two. */
  lemma ThirdBoundIsSharp(c: Scheme, v: Validator, s: Signature)
    requires v.weight == (W + 2) / 3 && s.nodeId == c.keyId(v.key) && c.verify(v.key, s.signature)
    ensures 3 * (Total([v]) - 1) < W <= 3 * Total([v])
    ensures AllSigned(c, [v], [s]) && Weight(c, [v], Signers([s], 1)) == Total([v])
    ensures !Accepts(c, [v], [s], true)
  {
    assert [v][..0] == [];
    assert Find(c, [v], s.nodeId) == 0;
    assert Total([v]) == v.weight;
    assert SignedBy(c, [v], s, 0);
    SignerAdds(c, [v], [s], 0);
    NoSigners(c, [v]);
    assert Signers([s], 0) == {};
    TallyIs(c, [v], [s], 0, 0);
    CleanIff(c, [v], [s]);
    assert 3 * v.weight == W + 2;
    assert 3 * v.weight % W == 2;
  }

  lemma Verdict(c: Scheme, vs: seq<Validator>, sigs: seq<Signature>, hashMatches: bool)
    requires Ordered(sigs, ById)
    ensures Accepts(c, vs, sigs, hashMatches) && Total(vs) < W ==> AllSigned(c, vs, sigs)
    ensures 3 * Total(vs) < W ==>
              (Accepts(c, vs, sigs, hashMatches) <==>
               && sigs != [] && vs != [] && hashMatches && AllSigned(c, vs, sigs)
               && 3 * Weight(c, vs, Signers(sigs, |sigs|)) > 2 * Total(vs))
  {
    if 3 * Total(vs) < W {
      AcceptsIff(c, vs, sigs, hashMatches);
    }
    if Accepts(c, vs, sigs, hashMatches) && Total(vs) < W {
      AcceptedAreSigned(c, vs, sigs, hashMatches);
    }
  }

  /** The check as it runs. `sorted` is the order the signatures were taken in. */
  method CheckBlockSignatures(c: Scheme, vs: seq<Validator>, sigs: seq<Signature>, hashMatches: bool)
    returns (ok: bool, sorted: seq<Signature>)
    ensures Ordered(sorted, ById) && SameElements(sorted, sigs)
    ensures ok <==> Accepts(c, vs, sorted, hashMatches)
    ensures ok && Total(vs) < W ==> AllSigned(c, vs, sorted)
    ensures 3 * Total(vs) < W ==>
              (ok <==> && sigs != [] && vs != [] && hashMatches && AllSigned(c, vs, sorted)
                       && 3 * Weight(c, vs, Signers(sorted, |sorted|)) > 2 * Total(vs))
  {
    sorted := Sort(sigs, ById);
    SameMembers(sorted, sigs);
    Verdict(c, vs, sorted, hashMatches);
    if |sigs| == 0 || |vs| == 0 || !hashMatches {
      return false, sorted;
    }
    var totalWeight, byId := Gather(c, vs);
    var signedWeight := CountSignatures(c, vs, sorted, totalWeight, byId);
    return signedWeight >= 0 && 3 * signedWeight % W > 2 * totalWeight % W, sorted;
  }

  ghost predicate Indexes(c: Scheme, vs: seq<Validator>, byId: map<nat, Validator>) {
    forall id: nat :: (id in byId <==> Find(c, vs, id) >= 0) && (id in byId ==> byId[id] == vs[Find(c, vs, id)])
  }

  /** The signed weight, or -1 when a signature is refused. */
  method CountSignatures(c: Scheme, vs: seq<Validator>, sigs: seq<Signature>, total: U64, byId: map<nat, Validator>)
    returns (signed: int)
    requires total == Total(vs) % W && Indexes(c, vs, byId)
    ensures signed == Tally(c, vs, sigs, 0, 0)
  {
    var weight: U64 := 0;
    for i := 0 to |sigs|
      invariant Tally(c, vs, sigs, 0, 0) == Tally(c, vs, sigs, i, weight)
    {
      var id := sigs[i].nodeId;
      if i > 0 && sigs[i - 1].nodeId == id {
        return -1;
      }
      if id !in byId {
        return -1;
      }
      var v := byId[id];
      if !c.verify(v.key, sigs[i].signature) {
        return -1;
      }
      weight := (weight + v.weight) % W;
      if weight > total {
        return weight;
      }
    }
    return weight;
  }

  /** The validators by key id, and their total weight as 64 bits hold it. */
  method Gather(c: Scheme, vs: seq<Validator>) returns (total: U64, byId: map<nat, Validator>)
    ensures total == Total(vs) % W
    ensures Indexes(c, vs, byId)
  {
    total, byId := 0, map[];
    for i := 0 to |vs|
      invariant total == Total(vs[..i]) % W
      invariant Indexes(c, vs[..i], byId)
    {
      assert vs[..i + 1][..i] == vs[..i];
      AddMod(Total(vs[..i]), vs[i].weight);
      total := (total + vs[i].weight) % W;
      byId := byId[c.keyId(vs[i].key) := vs[i]];
    }
    assert vs[..|vs|] == vs;
  }

  lemma AddMod(a: nat, b: U64)
    ensures (a % W + b) % W == (a + b) % W
  {
  }
}
