/** The loops of the VM value codec as they run: the head and tail swap of the tuple writer, the unwinding tuple reader, and
    the stack with its list writer and reader (tlb/stack.go). */
module VmLoops {
  import opened Options
  import opened Powers
  import opened VmCells
  import opened VmStack
  import opened VmRoundTrip

  /** A tuple whose early members cannot be stored cannot be stored. */
  lemma {:induction false} HeadFails(vs: seq<Value>, i: nat)
    requires 0 < i <= |vs| && TupleHead(vs[..i]).None?
    ensures TupleHead(vs).None?
    decreases |vs|
  {
    if i < |vs| {
      var front := vs[..|vs| - 1];
      assert front[..i] == vs[..i];
      HeadFails(front, i);
    } else {
      assert vs[..i] == vs;
    }
  }

  lemma {:induction false} MemberFails(vs: seq<Value>, i: nat)
    requires i < |vs| && ValueCell(vs[i]).None?
    ensures TupleHead(vs).None?
  {
    var front := vs[..i + 1];
    assert front[i] == vs[i];
    assert TupleHead(front).None?;
    HeadFails(vs, i + 1);
  }

  lemma TupleFails(vs: seq<Value>, rest: Chunk, i: nat)
    requires i < |vs| && (ValueCell(vs[i]).None? || (i < |vs| - 1 && TupleHead(vs[..i + 1]).None?))
    ensures EncTuple(vs, rest).None?
  {
    if i < |vs| - 1 {
      var front := vs[..|vs| - 1];
      assert front[i] == vs[i] && front[..i + 1] == vs[..i + 1];
      if ValueCell(vs[i]).None? {
        MemberFails(front, i);
      } else {
        HeadFails(front, i + 1);
      }
    }
  }

  /** The pair cell the writer builds from the previous head and tail. */
  function PairCell(head: Cell, tail: Cell): Option<Cell> {
    var t :- PutRef(tail, EMPTY);
    var pair :- PutRef(head, t);
    EndCell(pair)
  }

  lemma HeadStep(vs: seq<Value>, i: nat)
    requires 0 < i < |vs|
    ensures TupleHead(vs[..i + 1]) == (var last :- ValueCell(vs[i]); var head :- TupleHead(vs[..i]); PairCell(head, last))
  {
    assert vs[..i + 1][..i] == vs[..i] && vs[..i + 1][i] == vs[i];
  }

  lemma HeadOne(vs: seq<Value>)
    requires |vs| > 0
    ensures TupleHead(vs[..1]) == ValueCell(vs[0])
  {
    assert vs[..1] == [vs[0]];
  }

  /** What the writer holds after `i` members: all but the last one folded into the head, the last one in the tail. */
  ghost predicate Swapped(vs: seq<Value>, i: nat, head: Option<Cell>, tail: Option<Cell>)
    requires i <= |vs|
  {
    && (i == 0 ==> head.None? && tail.None?)
    && (i >= 1 ==> tail.Some? && tail == ValueCell(vs[i - 1]))
    && (i == 1 ==> head.None?)
    && (i >= 2 ==> head.Some? && head == TupleHead(vs[..i - 1]))
  }

  method SerializeTuple(vs: seq<Value>, rest: Chunk) returns (r: Option<Chunk>)
    ensures r == EncTuple(vs, rest)
  {
    var head: Option<Cell>, tail: Option<Cell> := None, None;
    for i := 0 to |vs|
      invariant Swapped(vs, i, head, tail)
    {
      head, tail := tail, head;
      if i == 1 {
        HeadOne(vs);
      }
      if i > 1 {
        HeadStep(vs, i - 1);
        var pair := PairCell(tail.value, head.value);
        if pair.None? {
          TupleFails(vs, rest, i - 1);
          return None;
        }
        head := pair;
      }
      var value := ValueCell(vs[i]);
      if value.None? {
        TupleFails(vs, rest, i);
        return None;
      }
      tail := value;
    }
    if |vs| >= 0x1_0000 {
      return None;
    }
    r := Some(rest);
    if tail.Some? {
      r := PutRef(tail.value, rest);
      if r.None? {
        return None;
      }
    }
    if head.Some? {
      r := PutRef(head.value, r.value);
      if r.None? {
        return None;
      }
    }
    return Some(PutUint(0x07, 8, PutUint(|vs|, 16, r.value)));
  }

  function After(p: Option<seq<Value>>, vs: seq<Value>): Option<seq<Value>> {
    if p.Some? then Some(p.value + vs) else None
  }

  lemma AfterOne(p: Option<seq<Value>>, v: Value, vs: seq<Value>)
    ensures After(After(p, [v]), vs) == After(p, [v] + vs)
    ensures After(p, []) == p
  {
    if p.Some? {
      assert p.value + [v] + vs == p.value + ([v] + vs);
      assert p.value + [] == p.value;
    }
  }

  /** Reads the members from the last one down, following the heads. */
  method ParseTupleMembers(n: nat, s: Chunk) returns (r: Option<(seq<Value>, Chunk)>)
    ensures r == ParseTuple(n, s)
  {
    if n == 0 {
      return Some(([], s));
    }
    var first :- TakeRef(s);
    if n == 1 {
      var v :- ParseValueCell(first.0);
      return Some(([v], first.1));
    }
    var second :- TakeRef(first.1);
    var head := first.0;
    var last :- ParseValueCell(second.0);
    var values :- ParseHeads(head, n - 1);
    return Some((values + [last], second.1));
  }

  /** The members in front of the last one, from nested pairs. */
  method ParseHeads(start: Cell, n: nat) returns (r: Option<seq<Value>>)
    requires n > 0
    ensures r == ParseTupleHead(start, n)
  {
    var head, values := start, [];
    AfterOne(ParseTupleHead(head, n), Null, []);
    for i := n downto 1
      invariant ParseTupleHead(start, n) == After(ParseTupleHead(head, i), values)
    {
      var pair := OpenOrdinary(head);
      if pair.None? || |pair.value.refs| != 2 || pair.value.bits != [] {
        HeadNeedsPair(head, i + 1);
        return None;
      }
      var v := ParseValueCell(pair.value.refs[1]);
      HeadIsPair(head, i + 1, pair.value, v);
      if v.None? {
        return None;
      }
      AfterOne(ParseTupleHead(pair.value.refs[0], i), v.value, values);
      head, values := pair.value.refs[0], [v.value] + values;
    }
    var v :- ParseValueCell(head);
    return Some([v] + values);
  }

  lemma HeadNeedsPair(head: Cell, n: nat)
    requires n > 1 && (OpenOrdinary(head).None? || |OpenOrdinary(head).value.refs| != 2 || OpenOrdinary(head).value.bits != [])
    ensures ParseTupleHead(head, n).None?
  {
  }

  lemma HeadIsPair(head: Cell, n: nat, pair: Chunk, v: Option<Value>)
    requires n > 1 && OpenOrdinary(head) == Some(pair) && |pair.refs| == 2 && pair.bits == [] && v == ParseValueCell(pair.refs[1])
    ensures ParseTupleHead(head, n) == if v.None? then None else After(ParseTupleHead(pair.refs[0], n - 1), [v.value])
  {
  }

  /** A stack element. It is never changed once it is linked; `rank` falls along the links. */
  class StackElement {
    const value: Value
    const next: StackElement?
    ghost const rank: nat

    constructor (value: Value, next: StackElement?)
      ensures this.value == value && this.next == next
      ensures next != null ==> next.rank < rank
    {
      this.value, this.next := value, next;
      rank := if next == null then 0 else next.rank + 1;
    }
  }

  ghost function Rank(n: StackElement?): nat {
    if n == null then 0 else n.rank + 1
  }

  ghost predicate Linked(n: StackElement?)
    decreases Rank(n)
  {
    n != null ==> Rank(n.next) < Rank(n) && Linked(n.next)
  }

  /** The values along the links. */
  ghost function Along(n: StackElement?): seq<Value>
    requires Linked(n)
    decreases Rank(n)
  {
    if n == null then [] else [n.value] + Along(n.next)
  }

  /** The stack of VM values: a list linked from the top down. */
  class Stack {
    var top: StackElement?

    ghost predicate Valid()
      reads this
    {
      Linked(top)
    }

    /** The values, top first. */
    ghost function Elems(): seq<Value>
      requires Valid()
      reads this
    {
      Along(top)
    }

    constructor ()
      ensures Valid() && Elems() == []
    {
      top := null;
    }

    method Depth() returns (depth: nat)
      requires Valid()
      ensures depth == |Elems()|
    {
      depth := 0;
      var v := top;
      while v != null
        invariant Linked(v) && |Elems()| == depth + |Along(v)|
        decreases Rank(v)
      {
        depth := depth + 1;
        v := v.next;
      }
    }

    method Push(v: Value)
      requires Valid()
      modifies this
      ensures Valid() && Elems() == [v] + old(Elems())
    {
      top := new StackElement(v, top);
    }

    /** Undoes a push, and fails on the empty stack alone. */
    method Pop() returns (r: Option<Value>)
      requires Valid()
      modifies this
      ensures Valid()
      ensures r.Some? <==> old(Elems()) != []
      ensures r.Some? ==> [r.value] + Elems() == old(Elems())
      ensures r.None? ==> Elems() == []
    {
      if top == null {
        return None;
      }
      r := Some(top.value);
      top := top.next;
    }

    /** The values in the order of the links. */
    method Unwrap() returns (unwrap: seq<Value>)
      requires Valid()
      ensures unwrap == Elems()
    {
      unwrap := [];
      var elem := top;
      while elem != null
        invariant Linked(elem) && Elems() == unwrap + Along(elem)
        decreases Rank(elem)
      {
        Regrouped(unwrap, elem.value, Along(elem.next));
        unwrap := unwrap + [elem.value];
        elem := elem.next;
      }
    }

    /** The depth and the list of values, the deepest one outermost. */
    method ToCell() returns (r: Option<Cell>)
      requires Valid()
      ensures r == (var c :- EncStack(Elems(), EMPTY); EndCell(c))
    {
      var elems := Unwrap();
      var n := |elems|;
      if n >= Pow2(24) {
        return None;
      }
      var next := EMPTY;
      for i := 0 to n
        invariant EncNode(elems[..i], EMPTY) == Some(next)
      {
        assert elems[..i + 1][..i] == elems[..i];
        var inner := EndCell(next);
        var value := EncValue(elems[i], EMPTY);
        if inner.None? || value.None? || PutRef(inner.value, value.value).None? {
          NodeFails(elems, i + 1);
          return None;
        }
        next := PutRef(inner.value, value.value).value;
      }
      assert elems[..n] == elems;
      return EndCell(PutUint(n, 24, next));
    }

    /** Empties the stack, then fills it with what the cell holds; it stays empty when the cell does not hold a stack. */
    method LoadFromCell(loader: Chunk) returns (r: Option<Chunk>)
      modifies this
      ensures Valid()
      ensures r.Some? <==> ParseStack(loader).Some?
      ensures r.Some? ==> (Elems(), r.value) == ParseStack(loader).value
      ensures r.None? ==> Elems() == []
    {
      top := null;
      var start := TakeUint(loader, 24);
      if start.None? || start.value.0 > MAX_STACK {
        return None;
      }
      var loaded := new Stack();
      r := loaded.ParseList(start.value.1, start.value.0);
      if r.Some? {
        top := loaded.top;
      }
    }

    /** Walks the list cells from the outermost one in, pushing each value. */
    method ParseList(root: Chunk, depth: nat) returns (r: Option<Chunk>)
      requires Valid() && Elems() == []
      modifies this
      ensures Valid()
      ensures r.Some? <==> ParseNode(root, depth).Some?
      ensures r.Some? ==> (Elems(), r.value) == ParseNode(root, depth).value
    {
      hide ParseNode, ParseCons, Nodes, Done, Linked, Along;
      NoNodes(root);
      if depth == 0 {
        return Some(root);
      }
      var next, left := root, root;
      NodesStart(root, depth);
      for i := 0 to depth
        invariant Valid()
        invariant ParseNode(root, depth) == Nodes(next, depth - i, Elems(), left, i > 0)
      {
        var one := ParseCons(next);
        NodesStep(next, depth - i, Elems(), left, i > 0, one);
        if one.None? || (i > 0 && !Done(one.value.2)) {
          return None;
        }
        if i == 0 {
          left := one.value.2;
        }
        Push(one.value.0);
        next := one.value.1;
      }
      NodesEnd(next, Elems(), left);
      return if Done(next) then Some(left) else None;
    }
  }

  lemma NoNodes(s: Chunk)
    ensures ParseNode(s, 0) == Some(([], s))
  {
  }

  lemma Regrouped(a: seq<Value>, v: Value, b: seq<Value>)
    ensures a + ([v] + b) == (a + [v]) + b
  {
  }

  lemma NodesEnd(s: Chunk, loaded: seq<Value>, left: Chunk)
    ensures Nodes(s, 0, loaded, left, true) == if Done(s) then Some((loaded, left)) else None
  {
    assert [] + loaded == loaded;
  }

  lemma {:induction false} NodeFails(vs: seq<Value>, i: nat)
    requires i <= |vs| && EncNode(vs[..i], EMPTY).None?
    ensures EncNode(vs, EMPTY).None?
    decreases |vs|
  {
    if i < |vs| {
      var front := vs[..|vs| - 1];
      assert front[..i] == vs[..i];
      NodeFails(front, i);
    } else {
      assert vs[..i] == vs;
    }
  }

  /** One list cell: its value, the opened next cell, and what is left behind the value. */
  function ParseCons(s: Chunk): Option<(Value, Chunk, Chunk)> {
    var (rest, s1) :- TakeRef(s);
    var (v, s2) :- ParseValue(s1);
    var open :- OpenOrdinary(rest);
    Some((v, open, s2))
  }

  /** The whole list, given the values already read and what was left behind the first one. */
  function Nodes(s: Chunk, n: nat, loaded: seq<Value>, left: Chunk, inner: bool): Option<(seq<Value>, Chunk)> {
    var (vs, rest) :- ParseNode(s, n);
    if !inner then Some((vs + loaded, rest))
    else if Done(rest) then Some((vs + loaded, left))
    else None
  }

  lemma NodesStart(s: Chunk, n: nat)
    ensures ParseNode(s, n) == Nodes(s, n, [], s, false)
  {
    if ParseNode(s, n).Some? {
      assert ParseNode(s, n).value.0 + [] == ParseNode(s, n).value.0;
    }
  }

  lemma NodesStep(s: Chunk, n: nat, loaded: seq<Value>, left: Chunk, inner: bool, one: Option<(Value, Chunk, Chunk)>)
    requires n > 0 && one == ParseCons(s)
    ensures Nodes(s, n, loaded, left, inner) ==
            if one.None? || (inner && !Done(one.value.2)) then None
            else Nodes(one.value.1, n - 1, [one.value.0] + loaded, if inner then left else one.value.2, true)
  {
    if one.Some? && ParseNode(one.value.1, n - 1).Some? {
      var vs := ParseNode(one.value.1, n - 1).value.0;
      assert (vs + [one.value.0]) + loaded == vs + ([one.value.0] + loaded);
    }
  }

  /** The codec theorem: a stack of up to 1024 values that can be stored loads back as the same stack, whatever it holds. */
  lemma StackRoundTrip(vs: seq<Value>)
    requires |vs| <= MAX_STACK && ShallowAll(vs) && EncStack(vs, EMPTY).Some?
    ensures ParseStack(EncStack(vs, EMPTY).value) == Some((vs, EMPTY))
  {
    RtStack(vs, EMPTY);
  }
}
