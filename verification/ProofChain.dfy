/** Following a lite server's block proofs from one masterchain block to another (ton/proof.go): the server may answer anything,
    the links decide. */
module ProofChain {
  import opened Options

  datatype Block = Block(workchain: int, shard: int, seqno: nat, rootHash: int, fileHash: int)

  datatype Step =
    | Forward(from: Option<Block>, to: Block, proof: int)
    | Backward(from: Option<Block>, to: Block, proof: int)
    | Unknown

  datatype Answer =
    | NotApplied
    | Failed
    | Part(from: Block, to: Block, steps: seq<Step>)

  /** The server, asked for the `n`th time from a block, and the checks of what a link's proof cells contain. */
  datatype Api = Api(answer: (nat, Block) -> Answer, forwardProof: (Block, Block, int) -> bool, backwardProof: (Block, Block, int) -> bool)

  const MASTERCHAIN: int := -1

  predicate CheckForward(api: Api, a: Block, b: Block, proof: int) {
    a.workchain == MASTERCHAIN && b.workchain == MASTERCHAIN && a.seqno < b.seqno && api.forwardProof(a, b, proof)
  }

  predicate CheckBackward(api: Api, a: Block, b: Block, proof: int) {
    a.workchain == MASTERCHAIN && b.workchain == MASTERCHAIN && a.seqno > b.seqno && api.backwardProof(a, b, proof)
  }

  /** `b` is proved from `a` by one checked link. Going backward, only backward links count. */
  ghost predicate Linked(api: Api, a: Block, b: Block, forward: bool) {
    || (exists proof :: CheckBackward(api, a, b, proof))
    || (forward && exists proof :: CheckForward(api, a, b, proof))
  }

  /** A link joins two masterchain blocks: a backward one goes down in number, a forward one up, and each has a proof that holds. */
  lemma LinkedIff(api: Api, a: Block, b: Block, forward: bool)
    ensures Linked(api, a, b, forward) <==>
            && a.workchain == -1 && b.workchain == -1
            && (|| (a.seqno > b.seqno && exists proof :: api.backwardProof(a, b, proof))
                || (forward && a.seqno < b.seqno && exists proof :: api.forwardProof(a, b, proof)))
  {
    if Linked(api, a, b, forward) {
      if proof :| CheckBackward(api, a, b, proof) {
        assert api.backwardProof(a, b, proof);
      } else {
        var proof :| CheckForward(api, a, b, proof);
        assert api.forwardProof(a, b, proof);
      }
    }
    if a.workchain == -1 && b.workchain == -1 {
      if proof :| a.seqno > b.seqno && api.backwardProof(a, b, proof) {
        assert CheckBackward(api, a, b, proof);
      }
      if proof :| forward && a.seqno < b.seqno && api.forwardProof(a, b, proof) {
        assert CheckForward(api, a, b, proof);
      }
    }
  }

  /** A step is followed only from the block it says it starts from, and only in a direction that is asked for. */
  lemma StepHoldsIff(api: Api, at: Block, to: Block, from: Option<Block>, proof: int, forward: bool)
    ensures StepHolds(api, at, Backward(from, to, proof), forward) <==>
            from == Some(at) && at.workchain == -1 && to.workchain == -1 && at.seqno > to.seqno && api.backwardProof(at, to, proof)
    ensures StepHolds(api, at, Forward(from, to, proof), forward) <==>
            forward && from == Some(at) && at.workchain == -1 && to.workchain == -1 && at.seqno < to.seqno && api.forwardProof(at, to, proof)
    ensures !StepHolds(api, at, Unknown, forward)
  {
  }

  ghost predicate Path(api: Api, path: seq<Block>, from: Block, to: Block, forward: bool) {
    && |path| > 0 && path[0] == from && path[|path| - 1] == to
    && forall i :: 0 < i < |path| ==> Linked(api, path[i - 1], path[i], forward)
  }

  /** Whether a step is a checked link out of `at`. */
  predicate StepHolds(api: Api, at: Block, step: Step, forward: bool) {
    match step
    case Forward(from, to, proof) => forward && from == Some(at) && CheckForward(api, at, to, proof)
    case Backward(from, to, proof) => from == Some(at) && CheckBackward(api, at, to, proof)
    case Unknown => false
  }

  predicate StepsHold(api: Api, at: Block, steps: seq<Step>, forward: bool)
    decreases |steps|
  {
    steps != [] ==> StepHolds(api, at, steps[0], forward) && StepsHold(api, steps[0].to, steps[1..], forward)
  }

  /** One answer checked step by step. The path grows by what was linked. */
  method FollowSteps(api: Api, from: Block, steps: seq<Step>, forward: bool, ghost start: Block, ghost path: seq<Block>)
    returns (end: Option<Block>, ghost path': seq<Block>)
    requires Path(api, path, start, from, forward)
    ensures end.Some? <==> StepsHold(api, from, steps, forward)
    ensures end.Some? ==> Path(api, path', start, end.value, forward)
    ensures end.Some? && steps != [] ==>
              !steps[|steps| - 1].Unknown? && end.value == steps[|steps| - 1].to && end.value.workchain == MASTERCHAIN
    ensures end.Some? && steps == [] ==> end.value == from
  {
    var at := from;
    path' := path;
    for i := 0 to |steps|
      invariant Path(api, path', start, at, forward)
      invariant StepsHold(api, from, steps, forward) <==> StepsHold(api, at, steps[i..], forward)
      invariant i == 0 ==> at == from
      invariant i > 0 ==> !steps[i - 1].Unknown? && at == steps[i - 1].to && at.workchain == MASTERCHAIN
    {
      assert steps[i..][1..] == steps[i + 1..];
      match steps[i]
      case Forward(f, to, proof) =>
        if !forward || f != Some(at) || !CheckForward(api, at, to, proof) {
          return None, path';
        }
        path' := Extend(api, path', start, at, to, forward);
        at := to;
      case Backward(f, to, proof) =>
        if f != Some(at) || !CheckBackward(api, at, to, proof) {
          return None, path';
        }
        path' := Extend(api, path', start, at, to, forward);
        at := to;
      case Unknown =>
        return None, path';
    }
    return Some(at), path';
  }

  ghost function Extend(api: Api, path: seq<Block>, start: Block, at: Block, to: Block, forward: bool): (r: seq<Block>)
    requires Path(api, path, start, at, forward) && Linked(api, at, to, forward)
    ensures Path(api, r, start, to, forward)
  {
    path + [to]
  }

  /** How far a block is from the target. */
  function Distance(a: Block, to: Block): nat {
    if a.seqno <= to.seqno then to.seqno - a.seqno else a.seqno - to.seqno
  }

  /** Whether the walk may go on from `next` after `at`: closer to the target and not past it. */
  predicate Progresses(at: Block, next: Block, to: Block, forward: bool) {
    if forward then at.seqno < next.seqno <= to.seqno else to.seqno <= next.seqno < at.seqno
  }

  /** An answer an honest server gives. */
  ghost predicate Good(api: Api, at: Block, to: Block, forward: bool, a: Answer) {
    && a.Part? && a.from == at && StepsHold(api, at, a.steps, forward) && a.steps != []
    && !a.steps[|a.steps| - 1].Unknown? && a.steps[|a.steps| - 1].to == a.to
    && Progresses(at, a.to, to, forward) && (a.to.seqno == to.seqno ==> a.to == to)
  }

  /** A masterchain block on the near side of the target. */
  ghost predicate OnTheWay(at: Block, to: Block, forward: bool) {
    at.workchain == MASTERCHAIN && if forward then at.seqno < to.seqno else to.seqno < at.seqno
  }

  ghost predicate HonestServer(api: Api, to: Block, forward: bool) {
    forall n: nat, at: Block :: OnTheWay(at, to, forward) ==> Good(api, at, to, forward, api.answer(n, at))
  }

  /** Walks from `from` to `to`. `nodes` is how many further servers can be tried when one does not have the block yet. */
  method VerifyProofChain(api: Api, from: Block, to: Block, nodes: nat) returns (ok: bool, calls: nat, ghost path: seq<Block>)
    ensures ok ==> Path(api, path, from, to, to.seqno > from.seqno)
    ensures calls <= Distance(from, to) + nodes + 1
    ensures from.seqno == to.seqno ==> (ok <==> from == to) && calls == 0
    ensures from.seqno != to.seqno && from.workchain == MASTERCHAIN && HonestServer(api, to, to.seqno > from.seqno) ==> ok
  {
    var forward := to.seqno > from.seqno;
    var at, left := from, nodes;
    calls, path := 0, [from];
    while at.seqno != to.seqno
      invariant at == from || (Progresses(from, at, to, forward) && at.workchain == MASTERCHAIN)
      invariant Path(api, path, from, at, forward)
      invariant calls + Distance(at, to) + left <= Distance(from, to) + nodes
      invariant from.seqno == to.seqno ==> calls == 0
      invariant at == from || (from.workchain == MASTERCHAIN && HonestServer(api, to, forward) && at.seqno == to.seqno ==> at == to)
      decreases Distance(at, to), left
    {
      var part := api.answer(calls, at);
      calls := calls + 1;
      match part
      case NotApplied =>
        if left == 0 {
          return false, calls, path;
        }
        left := left - 1;
      case Failed =>
        return false, calls, path;
      case Part(partFrom, partTo, steps) =>
        if partFrom != at {
          return false, calls, path;
        }
        var end, path' := FollowSteps(api, at, steps, forward, from, path);
        if end.None? || end.value != partTo || !Progresses(at, partTo, to, forward) {
          return false, calls, path;
        }
        assert steps != [];
        at, path := partTo, path';
    }
    return at == to, calls, path;
  }

  /** Whatever holds of the first block and passes along checked links holds of an accepted target. */
  lemma {:induction false} PathCarries(api: Api, path: seq<Block>, from: Block, to: Block, forward: bool, holds: Block -> bool)
    requires Path(api, path, from, to, forward) && holds(from)
    requires forall a, b :: holds(a) && Linked(api, a, b, forward) ==> holds(b)
    ensures holds(to)
  {
    if |path| > 1 {
      var mid := path[|path| - 2];
      PathCarries(api, path[..|path| - 1], from, mid, forward, holds);
      assert Linked(api, mid, path[|path| - 1], forward);
    }
  }
}
