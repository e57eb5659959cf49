/** Which inbound messages a shard has already processed, and the pruning of the records that say so
    (tlb/processed_upto.go). */
module ProcessedUpto {
  import opened Options
  import opened Bits
  import opened Shards
  import opened Pruning
  import opened Sorting

  /** As of masterchain block `mcSeqno`, everything routed into `shard` up to `(lt, hash)` is processed. Hashes are
      compared as big-endian numbers. */
  datatype Record = Record(shard: Word, mcSeqno: nat, lt: nat, hash: nat)

  datatype Message = Message(curWorkchain: int, curPrefix: Word, nextWorkchain: int, nextPrefix: Word,
                             lt: nat, enqueuedLt: nat, hash: nat)

  /** The end lt of the shard holding a prefix of a workchain, as of a masterchain block. */
  type Resolver = (nat, int, Word) -> nat

  datatype Answer = Yes | No | NoResolver

  predicate AtLeast(lt: nat, hash: nat, lt': nat, hash': nat) {
    lt > lt' || (lt == lt' && hash >= hash')
  }

  predicate Contains(r: Record, other: Record) {
    IsAncestor(r.shard, other.shard) && r.mcSeqno >= other.mcSeqno && AtLeast(r.lt, r.hash, other.lt, other.hash)
  }

  /** Whether one record covers a message. */
  function Covers(r: Record, msg: Message, endLt: Option<Resolver>): Answer {
    if msg.lt > r.lt then No
    else if !ContainsPrefix(r.shard, msg.nextPrefix) then No
    else if msg.lt == r.lt && r.hash < msg.hash then No
    else if msg.curWorkchain == msg.nextWorkchain && ContainsPrefix(r.shard, msg.curPrefix) then Yes
    else if endLt.None? then NoResolver
    else if msg.enqueuedLt < endLt.value(r.mcSeqno, msg.curWorkchain, msg.curPrefix) then Yes
    else No
  }

  /** The answer of the first record that does not say no. */
  function Scan(rs: seq<Record>, msg: Message, endLt: Option<Resolver>): Answer {
    if rs == [] then No
    else if Covers(rs[0], msg, endLt) != No then Covers(rs[0], msg, endLt)
    else Scan(rs[1..], msg, endLt)
  }

  function Processed(rs: seq<Record>, workchain: int, shard: Word, msg: Message, endLt: Option<Resolver>): Answer {
    if msg.nextWorkchain != workchain || !ContainsPrefix(shard, msg.nextPrefix) then No else Scan(rs, msg, endLt)
  }

  /** The record reaches the message: it lies behind it, and the message came from inside the shard or was enqueued before the
      end of the block the record knows of its source. */
  predicate Reaches(r: Record, msg: Message, endLt: Resolver) {
    && ContainsPrefix(r.shard, msg.nextPrefix)
    && AtLeast(r.lt, r.hash, msg.lt, msg.hash)
    && (|| (msg.curWorkchain == msg.nextWorkchain && ContainsPrefix(r.shard, msg.curPrefix))
        || msg.enqueuedLt < endLt(r.mcSeqno, msg.curWorkchain, msg.curPrefix))
  }

  /** Whether a resolver would have to be asked. */
  predicate NeedsSource(r: Record, msg: Message) {
    && ContainsPrefix(r.shard, msg.nextPrefix)
    && AtLeast(r.lt, r.hash, msg.lt, msg.hash)
    && !(msg.curWorkchain == msg.nextWorkchain && ContainsPrefix(r.shard, msg.curPrefix))
  }

  lemma CoversIff(r: Record, msg: Message, endLt: Option<Resolver>)
    ensures endLt.Some? ==> Covers(r, msg, endLt) == if Reaches(r, msg, endLt.value) then Yes else No
    ensures endLt.None? ==> (Covers(r, msg, endLt) == NoResolver <==> NeedsSource(r, msg))
    ensures endLt.None? ==> (Covers(r, msg, endLt) == Yes <==>
              && ContainsPrefix(r.shard, msg.nextPrefix) && AtLeast(r.lt, r.hash, msg.lt, msg.hash)
              && msg.curWorkchain == msg.nextWorkchain && ContainsPrefix(r.shard, msg.curPrefix))
  {
  }

  method AlreadyProcessed(rs: seq<Record>, workchain: int, shard: Word, msg: Message, endLt: Option<Resolver>) returns (r: Answer)
    ensures r == Processed(rs, workchain, shard, msg, endLt)
    ensures endLt.Some? ==> r != NoResolver && (r == Yes <==>
      && msg.nextWorkchain == workchain && ContainsPrefix(shard, msg.nextPrefix)
      && exists i :: 0 <= i < |rs| && Reaches(rs[i], msg, endLt.value))
    ensures endLt.None? && r == NoResolver ==> exists i :: 0 <= i < |rs| && NeedsSource(rs[i], msg)
  {
    if msg.nextWorkchain != workchain || !ContainsPrefix(shard, msg.nextPrefix) {
      return No;
    }
    for i := 0 to |rs|
      invariant Scan(rs, msg, endLt) == Scan(rs[i..], msg, endLt)
      invariant endLt.Some? ==> forall k :: 0 <= k < i ==> !Reaches(rs[k], msg, endLt.value)
    {
      assert rs[i..][1..] == rs[i + 1..];
      CoversIff(rs[i], msg, endLt);
      if Covers(rs[i], msg, endLt) != No {
        return Covers(rs[i], msg, endLt);
      }
    }
    return No;
  }

  ghost predicate Monotone(endLt: Resolver) {
    forall m, m', w, p :: m <= m' ==> endLt(m, w, p) <= endLt(m', w, p)
  }

  /** What a record covers, every record that contains it covers too. */
  lemma ContainsCovers(r: Record, o: Record, msg: Message, endLt: Resolver)
    requires Contains(r, o) && true in o.shard && Monotone(endLt)
    requires Covers(o, msg, Some(endLt)) == Yes
    ensures Covers(r, msg, Some(endLt)) == Yes
  {
    AncestorContains(r.shard, o.shard, msg.nextPrefix);
    if ContainsPrefix(o.shard, msg.curPrefix) {
      AncestorContains(r.shard, o.shard, msg.curPrefix);
    }
    assert endLt(o.mcSeqno, msg.curWorkchain, msg.curPrefix) <= endLt(r.mcSeqno, msg.curWorkchain, msg.curPrefix);
  }

  /** Containment means covering as much exactly when the contained record names a shard, or the other covers every word. */
  lemma ContainsCoversIff(r: Record, o: Record, endLt: Resolver)
    requires Contains(r, o) && Monotone(endLt)
    ensures (forall msg :: Covers(o, msg, Some(endLt)) == Yes ==> Covers(r, msg, Some(endLt)) == Yes) <==>
            true in o.shard || true !in r.shard[..WIDTH - 1]
  {
    if true in o.shard {
      forall msg | Covers(o, msg, Some(endLt)) == Yes
        ensures Covers(r, msg, Some(endLt)) == Yes
      {
        ContainsCovers(r, o, msg, endLt);
      }
    } else if true !in r.shard[..WIDTH - 1] {
      forall msg | Covers(o, msg, Some(endLt)) == Yes
        ensures Covers(r, msg, Some(endLt)) == Yes
      {
        TopContainsAll(r.shard, msg.nextPrefix);
        TopContainsAll(r.shard, msg.curPrefix);
        assert endLt(o.mcSeqno, msg.curWorkchain, msg.curPrefix) <= endLt(r.mcSeqno, msg.curWorkchain, msg.curPrefix);
      }
    } else {
      var p := LeftOut(r.shard);
      NoTrue(o.shard);
      ZeroContainsAll(p);
      assert Covers(o, Message(0, p, 0, p, 0, 0, 0), Some(endLt)) == Yes;
    }
  }

  lemma ContainsItself(s: Word)
    requires true in s
    ensures ContainsPrefix(s, s)
  {
    var k := MarkerAt(s);
    ContainsIff(k, s[k + 1..], s);
  }

  /** On real shards a record contains another exactly when it reaches every message the other reaches, whatever the source shards
      do. */
  lemma ContainsIsCoverage(r: Record, o: Record)
    requires true in r.shard && true in o.shard
    ensures Contains(r, o) <==>
            forall msg, endLt {:trigger Reaches(o, msg, endLt)} :: Monotone(endLt) && Reaches(o, msg, endLt) ==> Reaches(r, msg, endLt)
  {
    if Contains(r, o) {
      forall msg, endLt | Monotone(endLt) && Reaches(o, msg, endLt)
        ensures Reaches(r, msg, endLt)
      {
        CoversIff(r, msg, Some(endLt));
        CoversIff(o, msg, Some(endLt));
        ContainsCovers(r, o, msg, endLt);
      }
    } else {
      var msg, endLt := Missed(r, o);
    }
  }

  /** A message that only the second record reaches. */
  lemma Missed(r: Record, o: Record) returns (msg: Message, endLt: Resolver)
    requires true in r.shard && true in o.shard && !Contains(r, o)
    ensures Monotone(endLt) && Reaches(o, msg, endLt) && !Reaches(r, msg, endLt)
  {
    endLt := (m, _, _) => if m >= o.mcSeqno then 1 else 0;
    ContainsItself(o.shard);
    if !IsAncestor(r.shard, o.shard) {
      var p := Outside(r.shard, o.shard);
      msg := Message(0, p, 0, p, 0, 0, 0);
    } else if r.mcSeqno < o.mcSeqno {
      msg := Message(1, o.shard, 0, o.shard, 0, 0, 0);
    } else {
      msg := Message(0, o.shard, 0, o.shard, o.lt, 0, o.hash);
    }
  }

  /** A record of the zero shard, which the loader refuses, can be contained in one that covers less. */
  lemma ZeroRecordLosesMessages(msg: Message, endLt: Resolver)
    requires msg == Message(0, msg.nextPrefix, 0, msg.nextPrefix, 0, 0, 0) && true in msg.nextPrefix[1..]
    ensures var r, z := Record(Marked(0, Zeros(WIDTH - 1)), 1, 5, 0), Record(Zeros(WIDTH), 1, 5, 0);
            && Contains(r, z) && Prunes([r, z], [r], Contains)
            && Processed([r, z], 0, Zeros(WIDTH), msg, Some(endLt)) == Yes
            && Processed([r], 0, Zeros(WIDTH), msg, Some(endLt)) == No
  {
    var r, z := Record(Marked(0, Zeros(WIDTH - 1)), 1, 5, 0), Record(Zeros(WIDTH), 1, 5, 0);
    ZeroShardBelowALeaf();
    ContainsReflexive(r);
    OneIsEnough(r, z);
    ZeroContainsAll(msg.nextPrefix);
    ContainsIff(0, Zeros(WIDTH - 1), msg.nextPrefix);
    NoTrueIff(msg.nextPrefix[1..]);
    ScanTwo(r, z, msg, Some(endLt));
  }

  lemma OneIsEnough(r: Record, z: Record)
    requires Contains(r, r) && Contains(r, z)
    ensures Prunes([r, z], [r], Contains)
  {
    assert [r][0] == r;
    assert Dominated([r], r, Contains) && Dominated([r], z, Contains);
  }

  lemma ScanTwo(r: Record, z: Record, msg: Message, endLt: Option<Resolver>)
    requires Covers(r, msg, endLt) == No
    ensures Scan([r], msg, endLt) == No && Scan([r, z], msg, endLt) == Covers(z, msg, endLt)
  {
    assert [r, z][1..] == [z] && [r][1..] == [] && [z][1..] == [];
  }

  lemma ContainsReflexive(r: Record)
    ensures Contains(r, r)
  {
    AncestorReflexive(r.shard);
  }

  lemma ContainsTransitive(a: Record, b: Record, c: Record)
    requires Contains(a, b) && Contains(b, c)
    ensures Contains(a, c)
  {
    AncestorTransitive(a.shard, b.shard, c.shard);
  }

  lemma {:induction false} ScanSays(rs: seq<Record>, msg: Message, endLt: Resolver, covers: Record -> bool)
    requires forall r :: covers(r) <==> Covers(r, msg, Some(endLt)) == Yes
    ensures Scan(rs, msg, Some(endLt)) == if exists r :: r in rs && covers(r) then Yes else No
  {
    if rs != [] {
      ScanSays(rs[1..], msg, endLt, covers);
      assert rs == [rs[0]] + rs[1..];
      assert covers(rs[0]) <==> Covers(rs[0], msg, Some(endLt)) == Yes;
    }
  }

  /** Every record of a real state names a shard. */
  ghost predicate Real(rs: seq<Record>) {
    forall r :: r in rs ==> true in r.shard
  }

  lemma ContainsPreorder(rs: seq<Record>)
    ensures PreorderOn(rs, Contains)
  {
    forall a | a in rs
      ensures Contains(a, a)
    {
      ContainsReflexive(a);
    }
    forall a, b, c | a in rs && b in rs && c in rs && Contains(a, b) && Contains(b, c)
      ensures Contains(a, c)
    {
      ContainsTransitive(a, b, c);
    }
  }

  /** Pruning does not change which messages count as processed, whatever the message and the owner. */
  lemma PruningKeepsAnswers(all: seq<Record>, kept: seq<Record>, workchain: int, shard: Word, msg: Message, endLt: Resolver)
    requires Prunes(all, kept, Contains) && Real(all) && Monotone(endLt)
    ensures Processed(kept, workchain, shard, msg, Some(endLt)) == Processed(all, workchain, shard, msg, Some(endLt))
  {
    var covers := (r: Record) => Covers(r, msg, Some(endLt)) == Yes;
    CoversUpward(all, msg, endLt, covers);
    PruningKeeps(all, kept, Contains, covers);
    ScanSays(all, msg, endLt, covers);
    ScanSays(kept, msg, endLt, covers);
  }

  lemma CoversUpward(all: seq<Record>, msg: Message, endLt: Resolver, covers: Record -> bool)
    requires Real(all) && Monotone(endLt) && forall r :: covers(r) <==> Covers(r, msg, Some(endLt)) == Yes
    ensures forall k, r :: k in all && r in all && Contains(k, r) && covers(r) ==> covers(k)
  {
    forall k, r | k in all && r in all && Contains(k, r) && covers(r)
      ensures covers(k)
    {
      ContainsCovers(k, r, msg, endLt);
    }
  }

  /** Inserting a bound: dropped when some record contains it, appended otherwise, refused with a zero lt. */
  method InsertProcessedUpto(rs: seq<Record>, owner: Word, mcSeqno: nat, lt: nat, hash: nat) returns (r: Option<seq<Record>>)
    ensures r.None? <==> lt == 0
    ensures r.Some? ==> r.value == rs || r.value == rs + [Record(owner, mcSeqno, lt, hash)]
    ensures r.Some? ==> (r.value == rs <==> exists i :: 0 <= i < |rs| && Contains(rs[i], Record(owner, mcSeqno, lt, hash)))
  {
    if lt == 0 {
      return None;
    }
    var inserted := Record(owner, mcSeqno, lt, hash);
    for i := 0 to |rs|
      invariant forall k :: 0 <= k < i ==> !Contains(rs[k], inserted)
    {
      if Contains(rs[i], inserted) {
        return Some(rs);
      }
    }
    assert |rs + [inserted]| != |rs|;
    return Some(rs + [inserted]);
  }

  /** Leaving a contained bound out answers as if it had been added. */
  lemma DroppedInsertKeepsAnswers(rs: seq<Record>, inserted: Record, workchain: int, shard: Word, msg: Message, endLt: Resolver)
    requires Real(rs + [inserted]) && Monotone(endLt)
    requires exists i :: 0 <= i < |rs| && Contains(rs[i], inserted)
    ensures Processed(rs, workchain, shard, msg, Some(endLt)) == Processed(rs + [inserted], workchain, shard, msg, Some(endLt))
  {
    var all := rs + [inserted];
    ContainsPreorder(all);
    InsertPrunes(rs, inserted, Contains);
    PruningKeepsAnswers(all, rs, workchain, shard, msg, endLt);
  }

  lemma InsertPrunes(rs: seq<Record>, inserted: Record, dom: (Record, Record) -> bool)
    requires PreorderOn(rs + [inserted], dom) && exists i :: 0 <= i < |rs| && dom(rs[i], inserted)
    ensures Prunes(rs + [inserted], rs, dom)
  {
    var i :| 0 <= i < |rs| && dom(rs[i], inserted);
    forall r | r in rs + [inserted]
      ensures Dominated(rs, r, dom)
    {
      assert rs[i] in rs;
      assert if r in rs then dom(r, r) else dom(rs[i], r);
    }
  }

  predicate KeyLeq(a: Record, b: Record) {
    Value(a.shard) < Value(b.shard) || (Value(a.shard) == Value(b.shard) && a.mcSeqno <= b.mcSeqno)
  }

  lemma KeysAreOrdered()
    ensures TotalPreorder(KeyLeq)
  {
  }

  /** Sorts the records, drops every one that another surviving record contains and moves the rest to the front of the
      same array. The first `n` entries are the result. */
  method CompactifyProcessedUpto(a: array<Record>) returns (n: nat)
    modifies a
    ensures n <= a.Length
    ensures Prunes(old(a[..]), a[..n], Contains) && Antichain(a[..n], Contains) && Ordered(a[..n], KeyLeq)
    ensures forall i, j :: 0 <= i < j < n ==>
              Value(a[i].shard) < Value(a[j].shard) || (Value(a[i].shard) == Value(a[j].shard) && a[i].mcSeqno <= a[j].mcSeqno)
  {
    ghost var before := a[..];
    KeysAreOrdered();
    var sorted := Sort(a[..], KeyLeq);
    SameMembers(before, sorted);
    ContainsPreorder(sorted);
    forall i | 0 <= i < a.Length {
      a[i] := sorted[i];
    }
    assert a[..] == sorted;
    if a.Length < 2 {
      assert a[..a.Length] == sorted;
      FewPrune(before, sorted, Contains);
      ByKeys(a[..a.Length]);
      return a.Length;
    }
    var mark := MarkDominated(a, Contains);
    SurvivorsPrune(a[..], mark, Contains);
    SurvivorsInOrder(a[..], mark, KeyLeq);
    n := KeepUnmarked(a, mark);
    PrunesOriginal(before, sorted, a[..n], Contains);
    ByKeys(a[..n]);
    assert forall i :: 0 <= i < n ==> a[i] == a[..n][i];
  }

  lemma ByKeys(rs: seq<Record>)
    requires Ordered(rs, KeyLeq)
    ensures forall i, j :: 0 <= i < j < |rs| ==>
              Value(rs[i].shard) < Value(rs[j].shard) || (Value(rs[i].shard) == Value(rs[j].shard) && rs[i].mcSeqno <= rs[j].mcSeqno)
  {
    forall i, j | 0 <= i < j < |rs|
      ensures Value(rs[i].shard) < Value(rs[j].shard) || (Value(rs[i].shard) == Value(rs[j].shard) && rs[i].mcSeqno <= rs[j].mcSeqno)
    {
      assert KeyLeq(rs[i], rs[j]);
    }
  }

  lemma FewPrune(before: seq<Record>, rs: seq<Record>, dom: (Record, Record) -> bool)
    requires |rs| < 2 && PreorderOn(rs, dom) && forall r :: r in before <==> r in rs
    ensures Prunes(before, rs, dom) && Antichain(rs, dom)
  {
    forall r | r in before
      ensures Dominated(rs, r, dom)
    {
      assert dom(r, r);
    }
  }

  lemma PrunesOriginal(before: seq<Record>, rs: seq<Record>, kept: seq<Record>, dom: (Record, Record) -> bool)
    requires Prunes(rs, kept, dom) && forall r :: r in before <==> r in rs
    ensures Prunes(before, kept, dom)
  {
  }
}
