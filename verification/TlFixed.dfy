/** Structs that always take the same number of bytes (tl/precompile.go, `calculateFixedWireSize`). The memoised analysis
    gives the answer of the plain one on every schema, recursive ones included, and that answer is exact. */
module TlFixed {
  import opened Options
  import opened TlBytes
  import opened TlSchema
  import opened TlSize

  function Sum(a: Option<nat>, b: Option<nat>): Option<nat> {
    if a.None? || b.None? || a.value + b.value > MAX64 then None else Some(a.value + b.value)
  }

  /** The plain analysis: no memo, a struct met again below itself has no fixed size. */
  function Fix(sch: Schema, name: Name, visiting: set<Name>): (r: Option<nat>)
    ensures r.Some? ==> r.value <= MAX64
    decreases sch.structs.Keys - visiting, 0, 0
  {
    if name !in sch.structs || name in visiting then None
    else FixFields(sch, sch.structs[name].fields, visiting + {name})
  }

  function FixFields(sch: Schema, fs: seq<Field>, visiting: set<Name>): (r: Option<nat>)
    ensures r.Some? ==> r.value <= MAX64
    decreases sch.structs.Keys - visiting, 2, |fs|
  {
    if fs == [] then Some(0)
    else Sum(FixField(sch, fs[0], visiting), FixFields(sch, fs[1..], visiting))
  }

  function FixField(sch: Schema, f: Field, visiting: set<Name>): Option<nat>
    decreases sch.structs.Keys - visiting, 1, 0
  {
    if f.flag.Some? then None
    else if FixedKind(f.typ) > 0 then Some(FixedKind(f.typ))
    else if !f.typ.StructT? then None
    else Nested(f.typ, Fix(sch, f.typ.name, visiting))
  }

  /** The size of a struct inside a field: its constructor id when boxed, then the wrapper when it has one. */
  function Nested(t: FieldType, size: Option<nat>): Option<nat>
    requires t.StructT?
  {
    var inner := Sum(size, Some(if t.boxed then 4 else 0));
    if inner.None? || !t.asBytes then inner else EncodedSize(inner.value)
  }

  /** Struct `a` holds a struct `b` in a field that is always there. */
  ghost predicate Dep(sch: Schema, a: Name, b: Name) {
    a in sch.structs && exists i :: 0 <= i < |sch.structs[a].fields| && HoldsAt(sch.structs[a].fields[i], b)
  }

  predicate HoldsAt(f: Field, b: Name) {
    f.flag.None? && f.typ.StructT? && f.typ.name == b
  }

  ghost predicate Path(sch: Schema, p: seq<Name>) {
    |p| >= 2 && forall i :: 0 <= i < |p| - 1 ==> Dep(sch, p[i], p[i + 1])
  }

  ghost predicate Reaches(sch: Schema, a: Name, b: Name) {
    exists p :: Path(sch, p) && p[0] == a && p[|p| - 1] == b
  }

  lemma ReachStep(sch: Schema, a: Name, b: Name)
    requires Dep(sch, a, b)
    ensures Reaches(sch, a, b)
  {
    assert Path(sch, [a, b]);
  }

  lemma ReachJoin(sch: Schema, a: Name, b: Name, c: Name)
    requires Reaches(sch, a, b) && Reaches(sch, b, c)
    ensures Reaches(sch, a, c)
  {
    var p :| Path(sch, p) && p[0] == a && p[|p| - 1] == b;
    var q :| Path(sch, q) && q[0] == b && q[|q| - 1] == c;
    var r := p + q[1..];
    forall i | 0 <= i < |r| - 1
      ensures Dep(sch, r[i], r[i + 1])
    {
      if i < |p| - 1 {
        assert r[i] == p[i] && r[i + 1] == p[i + 1];
      } else {
        assert r[i] == q[i - |p| + 1] && r[i + 1] == q[i - |p| + 2];
      }
    }
    assert Path(sch, r);
  }

  lemma {:induction false} FixFieldsHolds(sch: Schema, fs: seq<Field>, i: nat, visiting: set<Name>)
    requires i < |fs| && FixFields(sch, fs, visiting).Some?
    ensures FixField(sch, fs[i], visiting).Some?
  {
    if i > 0 {
      FixFieldsHolds(sch, fs[1..], i - 1, visiting);
    }
  }

  /** Below a struct of fixed size no struct under visit comes up, and the struct itself does not either. */
  lemma {:induction false} PathAvoids(sch: Schema, p: seq<Name>, visiting: set<Name>)
    requires Path(sch, p) && Fix(sch, p[0], visiting).Some?
    ensures p[|p| - 1] !in visiting + {p[0]}
    decreases |p|
  {
    assert Dep(sch, p[0], p[0 + 1]);
    var i :| 0 <= i < |sch.structs[p[0]].fields| && HoldsAt(sch.structs[p[0]].fields[i], p[1]);
    FixFieldsHolds(sch, sch.structs[p[0]].fields, i, visiting + {p[0]});
    assert Fix(sch, p[1], visiting + {p[0]}).Some?;
    if |p| > 2 {
      forall k | 0 <= k < |p[1..]| - 1
        ensures Dep(sch, p[1..][k], p[1..][k + 1])
      {
        assert Dep(sch, p[k + 1], p[k + 2]);
      }
      PathAvoids(sch, p[1..], visiting + {p[0]});
    }
  }

  /** A fixed size does not depend on visits that do not lie below the struct. */
  lemma {:induction false} FixIgnores(sch: Schema, name: Name, visiting: set<Name>, others: set<Name>)
    requires Fix(sch, name, visiting).Some?
    requires name !in others && forall a :: a in others ==> !Reaches(sch, name, a)
    ensures Fix(sch, name, visiting + others) == Fix(sch, name, visiting)
    decreases sch.structs.Keys - visiting, 1, 0
  {
    FieldsIgnore(sch, name, sch.structs[name].fields, visiting + {name}, others);
    assert (visiting + {name}) + others == (visiting + others) + {name};
  }

  lemma {:induction false} FieldsIgnore(sch: Schema, name: Name, fs: seq<Field>, visiting: set<Name>, others: set<Name>)
    requires name in visiting && name in sch.structs && FixFields(sch, fs, visiting).Some?
    requires forall f :: f in fs ==> f in sch.structs[name].fields
    requires forall a :: a in others ==> !Reaches(sch, name, a)
    ensures FixFields(sch, fs, visiting + others) == FixFields(sch, fs, visiting)
    decreases sch.structs.Keys - visiting, 2, |fs|
  {
    if fs != [] {
      var f := fs[0];
      if FixedKind(f.typ) == 0 {
        assert f in fs && f in sch.structs[name].fields;
        var i :| 0 <= i < |sch.structs[name].fields| && sch.structs[name].fields[i] == f;
        assert HoldsAt(sch.structs[name].fields[i], f.typ.name);
        ReachStep(sch, name, f.typ.name);
        forall a | a in others
          ensures f.typ.name != a && !Reaches(sch, f.typ.name, a)
        {
          if Reaches(sch, f.typ.name, a) {
            ReachJoin(sch, name, f.typ.name, a);
          }
        }
        FixIgnores(sch, f.typ.name, visiting, others);
      }
      FieldsIgnore(sch, name, fs[1..], visiting, others);
    }
  }

  lemma {:induction false} FixShrinks(sch: Schema, name: Name, visiting: set<Name>, fewer: set<Name>)
    requires fewer <= visiting && Fix(sch, name, visiting).Some?
    ensures Fix(sch, name, fewer) == Fix(sch, name, visiting)
    decreases sch.structs.Keys - visiting, 0, 0
  {
    FieldsShrink(sch, sch.structs[name].fields, visiting + {name}, fewer + {name});
  }

  lemma {:induction false} FieldsShrink(sch: Schema, fs: seq<Field>, visiting: set<Name>, fewer: set<Name>)
    requires fewer <= visiting && FixFields(sch, fs, visiting).Some?
    ensures FixFields(sch, fs, fewer) == FixFields(sch, fs, visiting)
    decreases sch.structs.Keys - visiting, 2, |fs|
  {
    if fs != [] {
      if FixedKind(fs[0].typ) == 0 {
        FixShrinks(sch, fs[0].typ.name, visiting, fewer);
      }
      FieldsShrink(sch, fs[1..], visiting, fewer);
    }
  }

  /** Cutting the recursion at structs that lead here changes nothing: either way a cycle has no fixed size. */
  lemma VisitsDoNotMatter(sch: Schema, name: Name, visiting: set<Name>)
    requires forall a :: a in visiting ==> Reaches(sch, a, name)
    ensures Fix(sch, name, visiting) == Fix(sch, name, {})
  {
    if Fix(sch, name, {}).Some? {
      forall a | a in visiting
        ensures a != name && !Reaches(sch, name, a)
      {
        if a == name || Reaches(sch, name, a) {
          if a != name {
            ReachJoin(sch, name, a, name);
          }
          var p :| Path(sch, p) && p[0] == name && p[|p| - 1] == name;
          PathAvoids(sch, p, {});
          assert false;
        }
      }
      FixIgnores(sch, name, {}, visiting);
      assert {} + visiting == visiting;
    } else if Fix(sch, name, visiting).Some? {
      FixShrinks(sch, name, visiting, {});
    }
  }

  /** The answers remembered are those of the plain analysis started afresh. */
  ghost predicate TrueMemo(sch: Schema, memo: map<Name, Option<nat>>) {
    forall n :: n in memo ==> memo[n] == Fix(sch, n, {})
  }

  method CalculateFixedWireSize(sch: Schema, name: Name, visiting: set<Name>, memo: map<Name, Option<nat>>)
    returns (r: Option<nat>, memo': map<Name, Option<nat>>)
    requires TrueMemo(sch, memo) && forall a :: a in visiting ==> Reaches(sch, a, name)
    ensures TrueMemo(sch, memo')
    ensures r == Fix(sch, name, {})
    decreases sch.structs.Keys - visiting, 0
  {
    memo' := memo;
    VisitsDoNotMatter(sch, name, visiting);
    if name !in sch.structs || name in visiting {
      return None, memo';
    }
    if name in memo {
      return memo[name], memo';
    }
    var fs := sch.structs[name].fields;
    var size: nat := 0;
    FieldsFresh(sch, name, fs);
    for i := 0 to |fs|
      invariant TrueMemo(sch, memo') && size <= MAX64
      invariant Fix(sch, name, {}) == Sum(Some(size), FixFields(sch, fs[i..], {}))
    {
      assert fs[i..][1..] == fs[i + 1..];
      FieldReached(sch, name, i, visiting);
      var field;
      field, memo' := CalculateFixedFieldWireSize(sch, fs[i], visiting + {name}, memo');
      if field.None? || size > MAX64 - field.value {
        memo' := memo'[name := None];
        return None, memo';
      }
      size := size + field.value;
    }
    memo' := memo'[name := Some(size)];
    return Some(size), memo';
  }

  lemma FieldReached(sch: Schema, name: Name, i: nat, visiting: set<Name>)
    requires name in sch.structs && i < |sch.structs[name].fields|
    requires forall a :: a in visiting ==> Reaches(sch, a, name)
    ensures var f := sch.structs[name].fields[i];
            f.flag.None? && f.typ.StructT? ==> forall a :: a in visiting + {name} ==> Reaches(sch, a, f.typ.name)
  {
    var f := sch.structs[name].fields[i];
    if f.flag.None? && f.typ.StructT? {
      assert HoldsAt(sch.structs[name].fields[i], f.typ.name);
      ReachStep(sch, name, f.typ.name);
      forall a | a in visiting + {name}
        ensures Reaches(sch, a, f.typ.name)
      {
        if a != name {
          ReachJoin(sch, a, name, f.typ.name);
        }
      }
    }
  }

  /** Inside a struct its own visit does not matter to its fields. */
  lemma {:induction false} FieldsFresh(sch: Schema, name: Name, fs: seq<Field>)
    requires name in sch.structs && forall f :: f in fs ==> f in sch.structs[name].fields
    ensures FixFields(sch, fs, {} + {name}) == FixFields(sch, fs, {})
  {
    if fs != [] {
      assert fs[0] in fs && fs[0] in sch.structs[name].fields;
      var i :| 0 <= i < |sch.structs[name].fields| && sch.structs[name].fields[i] == fs[0];
      FieldReached(sch, name, i, {});
      if fs[0].flag.None? && fs[0].typ.StructT? {
        VisitsDoNotMatter(sch, fs[0].typ.name, {} + {name});
      }
      FieldsFresh(sch, name, fs[1..]);
    }
  }

  method CalculateFixedFieldWireSize(sch: Schema, f: Field, visiting: set<Name>, memo: map<Name, Option<nat>>)
    returns (r: Option<nat>, memo': map<Name, Option<nat>>)
    requires TrueMemo(sch, memo)
    requires f.flag.None? && f.typ.StructT? ==> forall a :: a in visiting ==> Reaches(sch, a, f.typ.name)
    ensures TrueMemo(sch, memo')
    ensures r == FixField(sch, f, {})
    decreases sch.structs.Keys - visiting, 1
  {
    memo' := memo;
    if f.flag.Some? {
      return None, memo';
    }
    if FixedKind(f.typ) > 0 {
      return Some(FixedKind(f.typ)), memo';
    }
    if !f.typ.StructT? {
      return None, memo';
    }
    r, memo' := CalculateFixedWireSize(sch, f.typ.name, visiting, memo);
    if r.None? {
      return None, memo';
    }
    var size: nat := r.value;
    if f.typ.boxed {
      if size > MAX64 - 4 {
        return None, memo';
      }
      size := size + 4;
    }
    if !f.typ.asBytes {
      return Some(size), memo';
    }
    return EncodedSize(size), memo';
  }

  /** A struct of fixed size: every value of it that can be written takes exactly that many bytes. */
  lemma {:induction false} FixedIsExact(sch: Schema, name: Name, visiting: set<Name>, vs: seq<Val>)
    requires Fix(sch, name, visiting).Some? && EncFields(sch, sch.structs[name].fields, vs, 0).Some?
    ensures |EncFields(sch, sch.structs[name].fields, vs, 0).value| == Fix(sch, name, visiting).value
    decreases sch.structs.Keys - visiting, 0, 0
  {
    ExactFields(sch, sch.structs[name].fields, visiting + {name}, vs, 0);
  }

  lemma {:induction false} ExactFields(sch: Schema, fs: seq<Field>, visiting: set<Name>, vs: seq<Val>, flags: nat)
    requires FixFields(sch, fs, visiting).Some? && EncFields(sch, fs, vs, flags).Some?
    ensures |EncFields(sch, fs, vs, flags).value| == FixFields(sch, fs, visiting).value
    decreases sch.structs.Keys - visiting, 2, |fs|
  {
    if fs != [] {
      ExactField(sch, fs[0], visiting, vs[0]);
      ExactFields(sch, fs[1..], visiting, vs[1..], NextFlags(fs[0], vs[0], flags));
    }
  }

  lemma {:induction false} ExactField(sch: Schema, f: Field, visiting: set<Name>, v: Val)
    requires FixField(sch, f, visiting).Some? && EncField(sch, f.typ, v).Some?
    ensures |EncField(sch, f.typ, v).value| == FixField(sch, f, visiting).value
    decreases sch.structs.Keys - visiting, 1, 0
  {
    if f.typ.StructT? {
      FixedIsExact(sch, f.typ.name, visiting, v.fields);
    }
  }
}
