/** Binary trees of shard descriptors (tlb/tree.go), and the shards their leaves stand for (ton/block.go). */
module BinTree {
  import opened Options
  import opened Bits
  import opened Shards
  import opened Cells

  /** The value in a leaf: what follows its tag bit. */
  function LeafValue(node: Cell): Cell
    requires |node.bits| > 0
  {
    Cell(Ordinary, node.bits[1..], node.refs)
  }

  predicate IsLeaf(node: Cell) {
    node.kind == Pruned || (node.kind == Ordinary && |node.bits| > 0 && !node.bits[0])
  }

  /** What a visit or a lookup yields at a leaf; a pruned branch stands for itself. */
  function ValueAt(node: Cell): Cell
    requires IsLeaf(node)
  {
    if node.kind == Pruned then node else LeafValue(node)
  }

  predicate IsFork(node: Cell) {
    node.kind == Ordinary && node.bits == [true] && |node.refs| == 2
  }

  /** The visits of a walk, left to right: the path to each leaf and its value. Fails on malformed nodes and on paths that no
      longer fit a cell. */
  function Walk(node: Cell, key: Bits): Option<seq<(Bits, Cell)>>
    decreases node
  {
    if IsLeaf(node) then Some([(key, ValueAt(node))])
    else if !IsFork(node) || |key| >= MAX_BITS then None
    else
      var l, r := Walk(node.refs[0], key + [false]), Walk(node.refs[1], key + [true]);
      if l.None? || r.None? then None else Some(l.value + r.value)
  }

  function Lookup(node: Cell, path: Bits): Option<Cell>
    decreases node
  {
    if IsLeaf(node) then if path == [] then Some(ValueAt(node)) else None
    else if path == [] || !IsFork(node) then None
    else Lookup(node.refs[if path[0] then 1 else 0], path[1..])
  }

  /** Lookups and walks in the cells' own bits: a leaf is a zero bit and its value, a fork a one bit and two references, left first,
      and a pruned branch stands for itself. */
  lemma TreeForms(bits: Bits, refs: seq<Cell>, l: Cell, r: Cell, pruned: Cell, path: Bits, key: Bits)
    requires pruned.kind == Pruned
    ensures var leaf, fork := Cell(Ordinary, [false] + bits, refs), Cell(Ordinary, [true], [l, r]);
            && Lookup(leaf, []) == Some(Cell(Ordinary, bits, refs)) && Walk(leaf, key) == Some([(key, Cell(Ordinary, bits, refs))])
            && Lookup(pruned, []) == Some(pruned) && Walk(pruned, key) == Some([(key, pruned)])
            && (path != [] ==> Lookup(leaf, path) == None && Lookup(pruned, path) == None)
            && Lookup(fork, []) == None && Lookup(fork, [false] + path) == Lookup(l, path) && Lookup(fork, [true] + path) == Lookup(r, path)
            && (|key| >= 1023 ==> Walk(fork, key) == None)
            && (Walk(l, key + [false]).Some? && Walk(r, key + [true]).Some? && |key| < 1023 ==>
                  Walk(fork, key) == Some(Walk(l, key + [false]).value + Walk(r, key + [true]).value))
    ensures var odd := Cell(Ordinary, [true] + bits, refs);
            bits != [] || |refs| != 2 ==> Lookup(odd, path) == None && Walk(odd, key) == None
    ensures Lookup(Cell(Special, bits, refs), path) == None && Walk(Cell(Special, bits, refs), key) == None
  {
    assert ([false] + bits)[1..] == bits;
    assert ([false] + path)[1..] == path && ([true] + path)[1..] == path;
  }

  /** The lookup as it runs: one node and the rest of the path. */
  method Get(root: Cell, key: Cell) returns (r: Option<Cell>)
    ensures r == if key.refs != [] then None else Lookup(root, key.bits)
  {
    if |key.refs| != 0 {
      return None;
    }
    var node, path := root, key.bits;
    while true
      invariant Lookup(root, key.bits) == Lookup(node, path)
      decreases node
    {
      if node.kind == Pruned {
        return if path == [] then Some(node) else None;
      }
      if node.kind == Special {
        return None;
      }
      if |node.bits| == 0 {
        return None;
      }
      if !node.bits[0] {
        return if path != [] then None else Some(LeafValue(node));
      }
      if path == [] || |node.bits| != 1 || |node.refs| != 2 {
        return None;
      }
      assert node.bits == [true];
      node, path := node.refs[if path[0] then 1 else 0], path[1..];
    }
  }

  lemma {:induction false} WalkExtends(node: Cell, key: Bits, i: nat)
    requires Walk(node, key).Some? && i < |Walk(node, key).value|
    ensures key <= Walk(node, key).value[i].0
    decreases node
  {
    if !IsLeaf(node) {
      var l, r := Walk(node.refs[0], key + [false]).value, Walk(node.refs[1], key + [true]).value;
      if i < |l| {
        WalkExtends(node.refs[0], key + [false], i);
        assert key <= key + [false] <= l[i].0;
      } else {
        WalkExtends(node.refs[1], key + [true], i - |l|);
        assert key <= key + [true] <= r[i - |l|].0;
      }
    }
  }

  /** A lookup finds exactly the pairs a walk visits. */
  lemma {:induction false} LookupIffVisited(node: Cell, key: Bits, path: Bits, v: Cell)
    requires Walk(node, key).Some?
    ensures Lookup(node, path) == Some(v) <==> (key + path, v) in Walk(node, key).value
    decreases node
  {
    if IsLeaf(node) {
      assert key + path == key <==> path == [];
    } else {
      var l, r := Walk(node.refs[0], key + [false]).value, Walk(node.refs[1], key + [true]).value;
      assert (key + path, v) in l + r <==> (key + path, v) in l || (key + path, v) in r;
      if path == [] {
        NotAbove(node.refs[0], key, false, path, v);
        NotAbove(node.refs[1], key, true, path, v);
      } else {
        assert key + path == (key + [path[0]]) + path[1..];
        LookupIffVisited(node.refs[if path[0] then 1 else 0], key + [path[0]], path[1..], v);
        NotAbove(node.refs[if path[0] then 0 else 1], key, !path[0], path, v);
      }
    }
  }

  /** The visits below one side of a fork are on no path of the other. */
  lemma NotAbove(node: Cell, key: Bits, side: bool, path: Bits, v: Cell)
    requires Walk(node, key + [side]).Some? && (path == [] || path[0] != side)
    ensures (key + path, v) !in Walk(node, key + [side]).value
  {
    var w := Walk(node, key + [side]).value;
    forall i | 0 <= i < |w|
      ensures w[i].0 != key + path
    {
      WalkExtends(node, key + [side], i);
      assert (key + [side])[|key|] == side;
      if |path| > 0 {
        assert (key + path)[|key|] == path[0];
      }
    }
  }

  /** Each path is visited once, and no visited path runs through another. */
  lemma {:induction false} WalkPrefixFree(node: Cell, key: Bits, i: nat, j: nat)
    requires Walk(node, key).Some? && i < j < |Walk(node, key).value|
    ensures !(Walk(node, key).value[i].0 <= Walk(node, key).value[j].0)
    ensures !(Walk(node, key).value[j].0 <= Walk(node, key).value[i].0)
    decreases node
  {
    var l, r := Walk(node.refs[0], key + [false]).value, Walk(node.refs[1], key + [true]).value;
    if j < |l| {
      WalkPrefixFree(node.refs[0], key + [false], i, j);
    } else if i >= |l| {
      WalkPrefixFree(node.refs[1], key + [true], i - |l|, j - |l|);
    } else {
      WalkExtends(node.refs[0], key + [false], i);
      WalkExtends(node.refs[1], key + [true], j - |l|);
      assert l[i].0[|key|] == (key + [false])[|key|] && r[j - |l|].0[|key|] == (key + [true])[|key|];
    }
  }

  function Reverse(s: Bits): (r: Bits)
    ensures |r| == |s|
  {
    if s == [] then [] else Reverse(s[1..]) + [s[0]]
  }

  /** The shard of a path: the path as prefix bits, the marker right below. */
  function ShardOf(key: Bits): Word
    requires |key| < WIDTH
  {
    Marked(WIDTH - 1 - |key|, Reverse(key))
  }

  lemma {:induction false} ReverseAt(s: Bits, i: nat)
    requires i < |s|
    ensures Reverse(s)[|s| - 1 - i] == s[i]
  {
    if i > 0 {
      ReverseAt(s[1..], i - 1);
    }
  }

  /** The word of a path: its bits from the top down, then the marker, then zeros. */
  lemma ShardBits(key: Bits, i: nat)
    requires |key| < WIDTH && i < WIDTH
    ensures ShardOf(key)[WIDTH - 1 - i] == if i < |key| then key[i] else i == |key|
  {
    if i < |key| {
      ReverseAt(key, i);
    }
  }

  lemma {:induction false} ReverseAppend(s: Bits, b: bool)
    ensures Reverse(s + [b]) == [b] + Reverse(s)
  {
    if s == [] {
      assert [] + [b] == [b];
    } else {
      assert (s + [b])[1..] == s[1..] + [b];
      ReverseAppend(s[1..], b);
    }
  }

  lemma ShardOfChild(key: Bits, b: bool)
    requires |key| + 1 < WIDTH
    ensures ShardOf(key + [b]) == GetChild(ShardOf(key), !b)
    ensures true in ShardOf(key) && !ShardOf(key)[0]
  {
    ReverseAppend(key, b);
    ChildIs(WIDTH - 1 - |key|, Reverse(key), !b);
    assert ShardOf(key)[WIDTH - 1 - |key|];
  }

  /** The shard of a path, one child step per bit; paths of 64 bits and more are too deep. */
  method ShardFromBinTreeKey(key: Bits) returns (r: Option<Word>)
    ensures r == if |key| < WIDTH then Some(ShardOf(key)) else None
  {
    var shard: Word := Marked(WIDTH - 1, []);
    for i := 0 to |key|
      invariant i < WIDTH && shard == ShardOf(key[..i])
    {
      LowestShard(key[..i]);
      if shard[0] {
        return None;
      }
      ShardOfChild(key[..i], key[i]);
      assert key[..i] + [key[i]] == key[..i + 1];
      shard := GetChild(shard, !key[i]);
    }
    assert key[..|key|] == key;
    return Some(shard);
  }

  lemma LowestShard(key: Bits)
    requires |key| < WIDTH
    ensures ShardOf(key)[0] <==> |key| == WIDTH - 1
  {
  }

  /** How many of the visited leaves have a shard that covers the word. */
  function CoverCount(leaves: seq<(Bits, Cell)>, p: Word): nat
    requires forall i :: 0 <= i < |leaves| ==> |leaves[i].0| < WIDTH
  {
    if leaves == [] then 0
    else (if ContainsPrefix(ShardOf(leaves[0].0), p) then 1 else 0) + CoverCount(leaves[1..], p)
  }

  lemma {:induction false} CountAdds(a: seq<(Bits, Cell)>, b: seq<(Bits, Cell)>, p: Word)
    requires forall i :: 0 <= i < |a + b| ==> |(a + b)[i].0| < WIDTH
    ensures (forall i :: 0 <= i < |a| ==> |a[i].0| < WIDTH) && (forall i :: 0 <= i < |b| ==> |b[i].0| < WIDTH)
    ensures CoverCount(a + b, p) == CoverCount(a, p) + CoverCount(b, p)
  {
    assert forall i :: 0 <= i < |a| ==> a[i] == (a + b)[i];
    assert forall i :: 0 <= i < |b| ==> b[i] == (a + b)[|a| + i];
    if a == [] {
      assert a + b == b;
    } else {
      assert (a + b)[1..] == a[1..] + b;
      CountAdds(a[1..], b, p);
    }
  }

  /** The leaves of a well-formed tree of depth up to 63 partition the words: the shard of exactly one leaf covers any
      given word. */
  lemma {:induction false} LeavesPartition(node: Cell, key: Bits, p: Word)
    requires Walk(node, key).Some? && |key| < WIDTH
    requires forall i :: 0 <= i < |Walk(node, key).value| ==> |Walk(node, key).value[i].0| < WIDTH
    ensures CoverCount(Walk(node, key).value, p) == if ContainsPrefix(ShardOf(key), p) then 1 else 0
    decreases node
  {
    var w := Walk(node, key).value;
    if IsLeaf(node) {
      assert w[1..] == [];
    } else {
      var l, r := Walk(node.refs[0], key + [false]).value, Walk(node.refs[1], key + [true]).value;
      CountAdds(l, r, p);
      NotEmpty(node.refs[0], key + [false]);
      WalkExtends(node.refs[0], key + [false], 0);
      LeavesPartition(node.refs[0], key + [false], p);
      LeavesPartition(node.refs[1], key + [true], p);
      ShardOfChild(key, false);
      ShardOfChild(key, true);
      ChildrenHalve(ShardOf(key), p);
    }
  }

  lemma NotEmpty(node: Cell, key: Bits)
    requires Walk(node, key).Some?
    ensures |Walk(node, key).value| > 0
    decreases node
  {
    if !IsLeaf(node) {
      NotEmpty(node.refs[0], key + [false]);
    }
  }

  /** The tree of a whole workchain: every word lies in the shard of exactly one leaf. */
  lemma ShardsPartitionAllPrefixes(root: Cell, p: Word)
    requires Walk(root, []).Some?
    requires forall i :: 0 <= i < |Walk(root, []).value| ==> |Walk(root, []).value[i].0| < WIDTH
    ensures CoverCount(Walk(root, []).value, p) == 1
  {
    LeavesPartition(root, [], p);
    assert ShardOf([]) == Marked(WIDTH - 1, []);
    ContainsIff(WIDTH - 1, [], p);
  }
}
