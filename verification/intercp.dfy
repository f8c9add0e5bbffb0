/** Inter-procedural constant propagation: the intraprocedural analysis
    extended with transfers along call, return and call-to-return edges,
    and with side tables that carry the values stored to static fields,
    instance fields and array elements from stores to the loads that may
    alias them. Aliasing is decided from the points-to sets of a prior
    pointer analysis. */
module InterConstProp {
  import opened Wrappers
  import opened Ir
  import opened ConstProp
  import JavaInt

  /** `pta.getPointsToSet(v)`. */
  type PointsTo = Var -> set<Obj>

  /** An instance field access `base.field`. */
  datatype FieldKey = FieldKey(base: Var, field: FieldRef)

  /** The side tables: the value stored to each static field and to each
      instance-field and array access, and the index values known for
      index variables. */
  datatype Tables = Tables(
    staticFields: map<FieldRef, Value>,
    instanceFields: map<FieldKey, Value>,
    arrays: map<ArrayAccess, Value>,
    arrayIndex: map<Var, Value>)

  /** `isOverlap`: scan the first set for a member of the second. */
  method IsOverlap(set1: set<Obj>, set2: set<Obj>) returns (r: bool)
    ensures r <==> exists o :: o in set1 && o in set2
  {
    var rest := set1;
    while rest != {}
      invariant rest <= set1
      invariant forall o :: o in set1 && o !in rest ==> o !in set2
      decreases rest
    {
      var o :| o in rest;
      if o in set2 {
        return true;
      }
      rest := rest - {o};
    }
    return false;
  }

  /** Two points-to sets share an object. */
  predicate Overlap(set1: set<Obj>, set2: set<Obj>) {
    set1 * set2 != {}
  }

  /** `isInstanceFieldAlias`: the same field, on bases that may point to a
      common object. */
  method IsInstanceFieldAlias(pts: PointsTo, first: FieldKey, second: FieldKey) returns (r: bool)
    ensures r <==> first.field == second.field && exists o :: o in pts(first.base) && o in pts(second.base)
    ensures r <==> FieldAlias(pts, first, second)
  {
    var overlap := IsOverlap(pts(first.base), pts(second.base));
    r := overlap && first.field == second.field;
    if r {
      var o :| o in pts(first.base) && o in pts(second.base);
      assert o in pts(first.base) * pts(second.base);
    }
  }

  predicate FieldAlias(pts: PointsTo, first: FieldKey, second: FieldKey) {
    Overlap(pts(first.base), pts(second.base)) && first.field == second.field
  }

  /** The value of the other access's index variable: from the fact when it
      holds the variable, else from the index table, else unknown. */
  function OtherIndex(t: Tables, fact: Fact, index: Var): Option<Value> {
    if index in fact then Some(fact[index])
    else if index in t.arrayIndex then Some(t.arrayIndex[index])
    else None
  }

  /** The abstract value `v` admits the concrete index `n`: NAC admits
      every index, a constant only itself, and Undef none. */
  predicate Admits(v: Value, n: JavaInt.int32) {
    v.NAC? || v == Const(n)
  }

  /** Some concrete index is admitted by both values. */
  ghost predicate MayBeEqual(v1: Value, v2: Value) {
    exists n: JavaInt.int32 :: Admits(v1, n) && Admits(v2, n)
  }

  /** Two index values may denote the same index exactly when neither is
      Undef and they are not two different constants. */
  lemma MayBeEqualCases(v1: Value, v2: Value)
    ensures MayBeEqual(v1, v2) <==> !v1.Undef? && !v2.Undef? && !(v1.Const? && v2.Const? && v1.c != v2.c)
  {
    if !v1.Undef? && !v2.Undef? && !(v1.Const? && v2.Const? && v1.c != v2.c) {
      var n: JavaInt.int32 := if v1.Const? then v1.c else if v2.Const? then v2.c else 0;
      assert Admits(v1, n) && Admits(v2, n);
    }
  }

  /** `isArrayAlias(first, in, other)`: the two accesses may touch the same
      element exactly when the other index has a known value, the bases may
      point to a common array, and some index is admitted by both index
      values. */
  function IsArrayAlias(pts: PointsTo, t: Tables, first: ArrayAccess, fact: Fact, other: ArrayAccess): (r: bool)
    ensures r <==> && OtherIndex(t, fact, other.index).Some?
                   && Overlap(pts(first.base), pts(other.base))
                   && MayBeEqual(Get(fact, first.index), OtherIndex(t, fact, other.index).value)
  {
    var index1 := Get(fact, first.index);
    match OtherIndex(t, fact, other.index)
    case None => false
    case Some(index2) =>
      MayBeEqualCases(index1, index2);
      if Overlap(pts(first.base), pts(other.base)) then
        if index1.Undef? || index2.Undef? then false
        else if index1.Const? && index2.Const? then index1.c == index2.c
        else true
      else false
  }

  /** Storing `v` at `k`: a key already present keeps the meet of its old
      value and `v`, a new key takes `v`. */
  function MeetStore<K>(m: map<K, Value>, k: K, v: Value): (r: map<K, Value>)
    ensures r.Keys == m.Keys + {k}
    ensures forall k' :: k' in m && k' != k ==> r[k'] == m[k']
    ensures r[k] == if k in m then MeetValue(m[k], v) else v
    ensures k in m ==> Leq(r[k], m[k]) && Leq(r[k], v)
  {
    if k in m then m[k := MeetValue(m[k], v)] else m[k := v]
  }

  /** The loop over `instanceFieldMap` for a load `y = x.f`: the meet of the
      values of every aliasing access, or nothing when none aliases. The
      result is the greatest lower bound of those values. */
  method LoadInstanceField(pts: PointsTo, m: map<FieldKey, Value>, access: FieldKey) returns (r: Option<Value>)
    ensures r.None? <==> forall k :: k in m ==> !FieldAlias(pts, k, access)
    ensures r.Some? ==> forall k :: k in m && FieldAlias(pts, k, access) ==> Leq(r.value, m[k])
    ensures r.Some? ==> forall l :: (forall k :: k in m && FieldAlias(pts, k, access) ==> Leq(l, m[k])) ==> Leq(l, r.value)
  {
    r := None;
    var rest := m.Keys;
    while rest != {}
      invariant rest <= m.Keys
      invariant r.None? <==> forall k :: k in m && k !in rest ==> !FieldAlias(pts, k, access)
      invariant r.Some? ==> forall k :: k in m && k !in rest && FieldAlias(pts, k, access) ==> Leq(r.value, m[k])
      invariant r.Some? ==> forall l :: (forall k :: k in m && k !in rest && FieldAlias(pts, k, access) ==> Leq(l, m[k])) ==> Leq(l, r.value)
      decreases rest
    {
      var k :| k in rest;
      var alias := IsInstanceFieldAlias(pts, k, access);
      if alias {
        r := if r.None? then Some(m[k]) else Some(MeetValue(r.value, m[k]));
      }
      rest := rest - {k};
    }
  }

  /** The loop over `arrayAccessMap` for a load `y = x[i]`, with the
      greatest lower bound of the aliasing values as its result. */
  method LoadArray(pts: PointsTo, t: Tables, access: ArrayAccess, fact: Fact) returns (r: Option<Value>)
    ensures r.None? <==> forall k :: k in t.arrays ==> !IsArrayAlias(pts, t, access, fact, k)
    ensures r.Some? ==> forall k :: k in t.arrays && IsArrayAlias(pts, t, access, fact, k) ==> Leq(r.value, t.arrays[k])
    ensures r.Some? ==> forall l :: (forall k :: k in t.arrays && IsArrayAlias(pts, t, access, fact, k) ==> Leq(l, t.arrays[k])) ==> Leq(l, r.value)
  {
    r := None;
    var m := t.arrays;
    var rest := m.Keys;
    while rest != {}
      invariant rest <= m.Keys
      invariant r.None? <==> forall k :: k in m && k !in rest ==> !IsArrayAlias(pts, t, access, fact, k)
      invariant r.Some? ==> forall k :: k in m && k !in rest && IsArrayAlias(pts, t, access, fact, k) ==> Leq(r.value, m[k])
      invariant r.Some? ==> forall l :: (forall k :: k in m && k !in rest && IsArrayAlias(pts, t, access, fact, k) ==> Leq(l, m[k])) ==> Leq(l, r.value)
      decreases rest
    {
      var k :| k in rest;
      if IsArrayAlias(pts, t, access, fact, k) {
        r := if r.None? then Some(m[k]) else Some(MeetValue(r.value, m[k]));
      }
      rest := rest - {k};
    }
  }

  /** The fact a load hands to `out.copyFrom`: IN with the loaded value
      written to the target variable when there is one. */
  function Loaded(fact: Fact, x: Var, v: Option<Value>): Fact {
    if v.Some? then Update(fact, x, v.value).1 else fact
  }

  /** `out` after `out.copyFrom(src)`. */
  ghost predicate CopiedFrom(out': Fact, out: Fact, src: Fact) {
    forall v :: Get(out', v) == if v in src then src[v] else Get(out, v)
  }

  predicate IsStoreField(st: Stmt) {
    st.kind.Assign? && st.kind.lvalue.LField? && st.kind.rvalue.VarExp?
  }

  predicate IsLoadField(st: Stmt) {
    st.kind.Assign? && st.kind.lvalue.LVar? && st.kind.rvalue.FieldExp?
  }

  predicate IsStoreArray(st: Stmt) {
    st.kind.Assign? && st.kind.lvalue.LArray? && st.kind.rvalue.VarExp?
  }

  predicate IsLoadArray(st: Stmt) {
    st.kind.Assign? && st.kind.lvalue.LVar? && st.kind.rvalue.ArrayExp?
  }

  /** The tables after a field store: the value of `y` is met into the
      static field's entry or into the entry of the instance access. */
  ghost predicate StoredField(t: Tables, st: Stmt, fact: Fact, t': Tables)
    requires IsStoreField(st)
  {
    var y := st.kind.rvalue.v;
    match st.kind.lvalue.access
    case StaticFieldAccess(f) => t' == t.(staticFields := MeetStore(t.staticFields, f, Get(fact, y)))
    case InstanceFieldAccess(x, f) => t' == t.(instanceFields := MeetStore(t.instanceFields, FieldKey(x, f), Get(fact, y)))
  }

  /** A store `T.f = y` or `x.f = y`: the value of `y` is met into the
      field's table entry, and OUT copies IN. */
  method TransferStoreField(t: Tables, st: Stmt, fact: Fact, out: Fact) returns (changed: bool, out': Fact, t': Tables)
    requires IsStoreField(st)
    ensures CopiedFrom(out', out, fact)
    ensures Canonical(out) && Canonical(fact) ==> Canonical(out') && (changed <==> out' != out)
    ensures StoredField(t, st, fact, t')
  {
    var y := st.kind.rvalue.v;
    match st.kind.lvalue.access {
      case StaticFieldAccess(f) =>
        t' := t.(staticFields := MeetStore(t.staticFields, f, Get(fact, y)));
      case InstanceFieldAccess(x, f) =>
        t' := t.(instanceFields := MeetStore(t.instanceFields, FieldKey(x, f), Get(fact, y)));
    }
    changed, out' := CopyFrom(out, fact);
  }

  /** OUT after a field load: IN with the loaded variable set to the static
      field's table value, or to the greatest lower bound of the values of
      the aliasing instance accesses, when there is one, copied into OUT. */
  ghost predicate LoadedField(pts: PointsTo, t: Tables, st: Stmt, fact: Fact, out: Fact, out': Fact)
    requires IsLoadField(st)
  {
    var x := st.kind.lvalue.v;
    match st.kind.rvalue.access
    case StaticFieldAccess(f) =>
      CopiedFrom(out', out, Loaded(fact, x, if f in t.staticFields then Some(t.staticFields[f]) else None))
    case InstanceFieldAccess(y, f) =>
      exists v :: IsFieldMeet(pts, t.instanceFields, FieldKey(y, f), v) && CopiedFrom(out', out, Loaded(fact, x, v))
  }

  /** A load `x = T.f` takes the static field's table value when there is
      one; a load `x = y.f` takes the greatest lower bound of the values of
      every aliasing access. Otherwise OUT copies IN. The tables are left
      alone. */
  method TransferLoadField(pts: PointsTo, t: Tables, st: Stmt, fact: Fact, out: Fact) returns (changed: bool, out': Fact)
    requires IsLoadField(st)
    ensures Canonical(out) && Canonical(fact) ==> Canonical(out') && (changed <==> out' != out)
    ensures LoadedField(pts, t, st, fact, out, out')
  {
    var x := st.kind.lvalue.v;
    var v: Option<Value>;
    match st.kind.rvalue.access {
      case StaticFieldAccess(f) =>
        v := if f in t.staticFields then Some(t.staticFields[f]) else None;
      case InstanceFieldAccess(y, f) =>
        v := LoadInstanceField(pts, t.instanceFields, FieldKey(y, f));
        assert IsFieldMeet(pts, t.instanceFields, FieldKey(y, f), v);
    }
    changed, out' := CopyFrom(out, Loaded(fact, x, v));
  }

  /** `v` is what `LoadInstanceField` computes. */
  ghost predicate IsFieldMeet(pts: PointsTo, m: map<FieldKey, Value>, access: FieldKey, r: Option<Value>) {
    && (r.None? <==> forall k :: k in m ==> !FieldAlias(pts, k, access))
    && (r.Some? ==> forall k :: k in m && FieldAlias(pts, k, access) ==> Leq(r.value, m[k]))
    && (r.Some? ==> forall l :: (forall k :: k in m && FieldAlias(pts, k, access) ==> Leq(l, m[k])) ==> Leq(l, r.value))
  }

  /** `v` is what `LoadArray` computes. */
  ghost predicate IsArrayMeet(pts: PointsTo, t: Tables, access: ArrayAccess, fact: Fact, r: Option<Value>) {
    && (r.None? <==> forall k :: k in t.arrays ==> !IsArrayAlias(pts, t, access, fact, k))
    && (r.Some? ==> forall k :: k in t.arrays && IsArrayAlias(pts, t, access, fact, k) ==> Leq(r.value, t.arrays[k]))
    && (r.Some? ==> forall l :: (forall k :: k in t.arrays && IsArrayAlias(pts, t, access, fact, k) ==> Leq(l, t.arrays[k])) ==> Leq(l, r.value))
  }

  /** The tables after an array store: with `y` in IN, its value is met
      into the access's entry and a constant index value is recorded for
      the index variable; otherwise nothing changes. */
  ghost predicate StoredArray(t: Tables, st: Stmt, fact: Fact, t': Tables)
    requires IsStoreArray(st)
  {
    var access := st.kind.lvalue.arrayAccess;
    var y := st.kind.rvalue.v;
    var i := access.index;
    && (y !in fact ==> t' == t)
    && (y in fact ==>
          && t'.arrays == MeetStore(t.arrays, access, fact[y])
          && t'.staticFields == t.staticFields && t'.instanceFields == t.instanceFields
          && t'.arrayIndex == if i in fact && fact[i].Const? then t.arrayIndex[i := fact[i]] else t.arrayIndex)
  }

  /** A store `a[i] = y` with `y` in IN: the value of `y` is met into the
      access's table entry, and a constant index value is recorded for `i`.
      A store whose value variable IN does not hold leaves the tables alone.
      OUT copies IN. */
  method TransferStoreArray(t: Tables, st: Stmt, fact: Fact, out: Fact) returns (changed: bool, out': Fact, t': Tables)
    requires IsStoreArray(st)
    ensures CopiedFrom(out', out, fact)
    ensures Canonical(out) && Canonical(fact) ==> Canonical(out') && (changed <==> out' != out)
    ensures StoredArray(t, st, fact, t')
  {
    var access := st.kind.lvalue.arrayAccess;
    var y := st.kind.rvalue.v;
    t' := t;
    if y in fact {
      t' := t'.(arrays := MeetStore(t'.arrays, access, fact[y]));
      if access.index in fact && fact[access.index].Const? {
        t' := t'.(arrayIndex := t'.arrayIndex[access.index := fact[access.index]]);
      }
    }
    changed, out' := CopyFrom(out, fact);
  }

  /** OUT after an array load: IN with the loaded variable set to the
      greatest lower bound of the values of the aliasing accesses, when
      there is one, copied into OUT. */
  ghost predicate LoadedArray(pts: PointsTo, t: Tables, st: Stmt, fact: Fact, out: Fact, out': Fact)
    requires IsLoadArray(st)
  {
    exists v :: IsArrayMeet(pts, t, st.kind.rvalue.arrayAccess, fact, v) && CopiedFrom(out', out, Loaded(fact, st.kind.lvalue.v, v))
  }

  /** A load `x = a[i]`: `x` takes the greatest lower bound of the values of
      every aliasing array access, when some access aliases. */
  method TransferLoadArray(pts: PointsTo, t: Tables, st: Stmt, fact: Fact, out: Fact) returns (changed: bool, out': Fact)
    requires IsLoadArray(st)
    ensures Canonical(out) && Canonical(fact) ==> Canonical(out') && (changed <==> out' != out)
    ensures LoadedArray(pts, t, st, fact, out, out')
  {
    var v := LoadArray(pts, t, st.kind.rvalue.arrayAccess, fact);
    assert IsArrayMeet(pts, t, st.kind.rvalue.arrayAccess, fact, v);
    changed, out' := CopyFrom(out, Loaded(fact, st.kind.lvalue.v, v));
  }

  /** A statement that is neither a field nor an array access. */
  predicate IsPlain(st: Stmt) {
    !IsStoreField(st) && !IsLoadField(st) && !IsStoreArray(st) && !IsLoadArray(st)
  }

  /** `transferNonCallNode`: field and array accesses go through the side
      tables; every other statement is the intraprocedural transfer, which
      writes the value of an int-holding definition's right-hand side. */
  method TransferNonCallNode(pts: PointsTo, t: Tables, st: Stmt, fact: Fact, out: Fact) returns (changed: bool, out': Fact, t': Tables)
    requires Canonical(fact) && Canonical(out)
    ensures Canonical(out') && (changed <==> out' != out)
    ensures !IsStoreField(st) && !IsStoreArray(st) ==> t' == t
    ensures IsStoreField(st) ==> CopiedFrom(out', out, fact) && StoredField(t, st, fact, t')
    ensures IsLoadField(st) ==> LoadedField(pts, t, st, fact, out, out')
    ensures IsStoreArray(st) ==> CopiedFrom(out', out, fact) && StoredArray(t, st, fact, t')
    ensures IsLoadArray(st) ==> LoadedArray(pts, t, st, fact, out, out')
    ensures IsPlain(st) ==>
              forall v :: Some(v) != GenVar(st) ==> Get(out', v) == if v in fact then fact[v] else Get(out, v)
    ensures IsPlain(st) && GenVar(st).Some? ==>
              var x := GenVar(st).value;
              var gen := Evaluate(RhsOf(st), fact);
              Get(out', x) == (if gen.Undef? then Get(out, x) else gen)
  {
    if IsStoreField(st) {
      changed, out', t' := TransferStoreField(t, st, fact, out);
    } else if IsLoadField(st) {
      changed, out' := TransferLoadField(pts, t, st, fact, out);
      t' := t;
    } else if IsStoreArray(st) {
      changed, out', t' := TransferStoreArray(t, st, fact, out);
    } else if IsLoadArray(st) {
      changed, out' := TransferLoadArray(pts, t, st, fact, out);
      t' := t;
    } else {
      changed, out' := TransferNode(st, fact, out);
      t' := t;
    }
  }

  /** `transferCallNode`: OUT copies IN; the call's effect is carried by
      the edges. */
  method TransferCallNode(fact: Fact, out: Fact) returns (changed: bool, out': Fact)
    ensures CopiedFrom(out', out, fact)
    ensures Canonical(out) && Canonical(fact) ==> Canonical(out') && (changed <==> out' != out)
  {
    changed, out' := CopyFrom(out, fact);
  }

  /** `transferCallToReturnEdge`: the call's result variable is dropped,
      since the return edge brings its value; without a result variable the
      fact passes unchanged. */
  function TransferCallToReturnEdge(call: Stmt, out: Fact): (r: Fact)
    requires call.kind.Invoke?
    ensures call.kind.result.None? ==> r == out
    ensures call.kind.result.Some? ==> call.kind.result.value !in r
    ensures forall v :: Some(v) != call.kind.result ==> (v in r <==> v in out) && Get(r, v) == Get(out, v)
    ensures Canonical(out) ==> Canonical(r)
  {
    if call.kind.result.Some? then out - {call.kind.result.value} else out
  }

  /** A later argument writes the same parameter only when it is not
      int-holding, so argument `i`'s value is the one that stays. */
  predicate LastWriter(args: seq<Var>, params: seq<Var>, n: nat, i: nat)
    requires n <= |args| && n <= |params|
  {
    forall j :: i < j < n && params[j] == params[i] ==> !CanHoldInt(args[j])
  }

  /** The parameters among the first `n` that receive an int-holding
      argument. */
  function IntParams(args: seq<Var>, params: seq<Var>, n: nat): set<Var>
    requires n <= |args| && n <= |params|
  {
    set i | 0 <= i < n && CanHoldInt(args[i]) :: params[i]
  }

  lemma IntParamsStep(args: seq<Var>, params: seq<Var>, n: nat)
    requires n < |args| && n < |params|
    ensures IntParams(args, params, n + 1) == IntParams(args, params, n) + (if CanHoldInt(args[n]) then {params[n]} else {})
  {
    var next := IntParams(args, params, n + 1);
    var prev := IntParams(args, params, n);
    forall v | v in next ensures v in prev || (CanHoldInt(args[n]) && v == params[n]) {
      var i :| 0 <= i < n + 1 && CanHoldInt(args[i]) && params[i] == v;
      if i < n {
        assert v in prev;
      }
    }
  }

  /** The state of `transferCallEdge` after the first `i` argument
      positions: the callee fact and the index table hold the values passed
      so far. */
  ghost predicate PassedUpTo(args: seq<Var>, params: seq<Var>, callSiteOut: Fact, t: Tables, i: nat, r: Fact, t': Tables)
    requires i <= |args| && i <= |params|
  {
    && Canonical(r)
    && r.Keys <= IntParams(args, params, i)
    && t'.arrayIndex.Keys == t.arrayIndex.Keys + IntParams(args, params, i)
    && (forall v :: v in t.arrayIndex && v !in IntParams(args, params, i) ==> t'.arrayIndex[v] == t.arrayIndex[v])
    && (forall k :: 0 <= k < i && CanHoldInt(args[k]) && LastWriter(args, params, i, k) ==>
          Get(r, params[k]) == Get(callSiteOut, args[k]) && t'.arrayIndex[params[k]] == Get(callSiteOut, args[k]))
    && t'.staticFields == t.staticFields && t'.instanceFields == t.instanceFields && t'.arrays == t.arrays
  }

  /** One iteration of the loop of `transferCallEdge`. */
  method PassArgument(args: seq<Var>, params: seq<Var>, callSiteOut: Fact, t: Tables, i: nat, r: Fact, t1: Tables)
    returns (r': Fact, t2: Tables)
    requires i < |args| && i < |params|
    requires PassedUpTo(args, params, callSiteOut, t, i, r, t1)
    ensures PassedUpTo(args, params, callSiteOut, t, i + 1, r', t2)
  {
    if CanHoldInt(args[i]) {
      var value := Get(callSiteOut, args[i]);
      r' := Update(r, params[i], value).1;
      t2 := t1.(arrayIndex := t1.arrayIndex[params[i] := value]);
      PassIntKeys(args, params, callSiteOut, t, i, r, t1);
      PassIntValues(args, params, callSiteOut, t, i, r, t1);
    } else {
      r', t2 := r, t1;
      PassOther(args, params, callSiteOut, t, i, r, t1);
    }
  }

  /** The fact and the table after an int-holding argument at `i`. */
  function PassInt(args: seq<Var>, params: seq<Var>, callSiteOut: Fact, i: nat, r: Fact, t1: Tables): (Fact, Tables)
    requires i < |args| && i < |params|
  {
    var value := Get(callSiteOut, args[i]);
    (Update(r, params[i], value).1, t1.(arrayIndex := t1.arrayIndex[params[i] := value]))
  }

  lemma PassIntKeys(args: seq<Var>, params: seq<Var>, callSiteOut: Fact, t: Tables, i: nat, r: Fact, t1: Tables)
    requires i < |args| && i < |params| && CanHoldInt(args[i])
    requires PassedUpTo(args, params, callSiteOut, t, i, r, t1)
    ensures var (r', t2) := PassInt(args, params, callSiteOut, i, r, t1);
            && Canonical(r')
            && r'.Keys <= IntParams(args, params, i + 1)
            && t2.arrayIndex.Keys == t.arrayIndex.Keys + IntParams(args, params, i + 1)
            && (forall v :: v in t.arrayIndex && v !in IntParams(args, params, i + 1) ==> t2.arrayIndex[v] == t.arrayIndex[v])
            && t2.staticFields == t.staticFields && t2.instanceFields == t.instanceFields && t2.arrays == t.arrays
  {
    IntParamsStep(args, params, i);
  }

  /** An int-holding argument overwrites its parameter and leaves the
      values of every other parameter passed so far. */
  lemma PassIntValues(args: seq<Var>, params: seq<Var>, callSiteOut: Fact, t: Tables, i: nat, r: Fact, t1: Tables)
    requires i < |args| && i < |params| && CanHoldInt(args[i])
    requires PassedUpTo(args, params, callSiteOut, t, i, r, t1)
    ensures var (r', t2) := PassInt(args, params, callSiteOut, i, r, t1);
            forall k :: 0 <= k < i + 1 && CanHoldInt(args[k]) && LastWriter(args, params, i + 1, k) ==>
              Get(r', params[k]) == Get(callSiteOut, args[k]) && t2.arrayIndex[params[k]] == Get(callSiteOut, args[k])
  {
    forall k | 0 <= k < i && CanHoldInt(args[k]) && LastWriter(args, params, i + 1, k)
      ensures params[k] != params[i] && LastWriter(args, params, i, k)
    {
    }
  }

  lemma PassOther(args: seq<Var>, params: seq<Var>, callSiteOut: Fact, t: Tables, i: nat, r: Fact, t1: Tables)
    requires i < |args| && i < |params| && !CanHoldInt(args[i])
    requires PassedUpTo(args, params, callSiteOut, t, i, r, t1)
    ensures PassedUpTo(args, params, callSiteOut, t, i + 1, r, t1)
  {
    IntParamsStep(args, params, i);
    PassOtherValues(args, params, callSiteOut, t, i, r, t1);
  }

  /** A non-int argument leaves the values of the parameters passed so far. */
  lemma PassOtherValues(args: seq<Var>, params: seq<Var>, callSiteOut: Fact, t: Tables, i: nat, r: Fact, t1: Tables)
    requires i < |args| && i < |params| && !CanHoldInt(args[i])
    requires PassedUpTo(args, params, callSiteOut, t, i, r, t1)
    ensures forall k :: 0 <= k < i + 1 && CanHoldInt(args[k]) && LastWriter(args, params, i + 1, k) ==>
              Get(r, params[k]) == Get(callSiteOut, args[k]) && t1.arrayIndex[params[k]] == Get(callSiteOut, args[k])
  {
    forall k | 0 <= k < i + 1 && CanHoldInt(args[k]) && LastWriter(args, params, i + 1, k)
      ensures k < i && LastWriter(args, params, i, k)
    {
    }
  }

  /** `transferCallEdge`: a fact for the callee holding only its parameters,
      each int-holding argument's value passed to the parameter at its
      position (a later int-holding argument for the same parameter wins);
      each such parameter's value is also recorded in the index table. */
  method TransferCallEdge(params: seq<Var>, call: Stmt, callSiteOut: Fact, t: Tables) returns (r: Fact, t': Tables)
    requires call.kind.Invoke?
    ensures Canonical(r)
    ensures var args := call.kind.invokeExp.args;
            var n := if |args| < |params| then |args| else |params|;
            && r.Keys <= IntParams(args, params, n)
            && t'.arrayIndex.Keys == t.arrayIndex.Keys + IntParams(args, params, n)
            && (forall v :: v in t.arrayIndex && v !in IntParams(args, params, n) ==> t'.arrayIndex[v] == t.arrayIndex[v])
            && (forall i :: 0 <= i < n && CanHoldInt(args[i]) && LastWriter(args, params, n, i) ==>
                  Get(r, params[i]) == Get(callSiteOut, args[i]) && t'.arrayIndex[params[i]] == Get(callSiteOut, args[i]))
            && t'.staticFields == t.staticFields && t'.instanceFields == t.instanceFields && t'.arrays == t.arrays
  {
    var args := call.kind.invokeExp.args;
    var n := if |args| < |params| then |args| else |params|;
    r := map[];
    t' := t;
    var i := 0;
    while i < n
      invariant 0 <= i <= n
      invariant PassedUpTo(args, params, callSiteOut, t, i, r, t')
    {
      r, t' := PassArgument(args, params, callSiteOut, t, i, r, t');
      i := i + 1;
    }
  }

  /** `transferReturnEdge`: for a call with an int-holding result variable,
      a fact holding only that variable, whose value is the greatest lower
      bound of the values of the callee's int-holding return variables;
      otherwise the empty fact. */
  method TransferReturnEdge(call: Stmt, returnVars: seq<Var>, returnOut: Fact) returns (r: Fact)
    requires call.kind.Invoke?
    ensures Canonical(r)
    ensures call.kind.result.None? || !CanHoldInt(call.kind.result.value) ==> r == map[]
    ensures forall v :: v in r ==> Some(v) == call.kind.result
    ensures call.kind.result.Some? && CanHoldInt(call.kind.result.value) ==>
              var x := call.kind.result.value;
              && (forall k :: 0 <= k < |returnVars| && CanHoldInt(returnVars[k]) ==> Leq(Get(r, x), Get(returnOut, returnVars[k])))
              && (forall l :: (forall k :: 0 <= k < |returnVars| && CanHoldInt(returnVars[k]) ==> Leq(l, Get(returnOut, returnVars[k]))) ==> Leq(l, Get(r, x)))
  {
    r := map[];
    if call.kind.result.None? {
      return;
    }
    var x := call.kind.result.value;
    var fin: Option<Value> := None;
    var i := 0;
    while i < |returnVars|
      invariant 0 <= i <= |returnVars|
      invariant fin.None? ==> forall k :: 0 <= k < i ==> !(CanHoldInt(x) && CanHoldInt(returnVars[k]))
      invariant fin.Some? ==> CanHoldInt(x)
      invariant fin.Some? ==> forall k :: 0 <= k < i && CanHoldInt(returnVars[k]) ==> Leq(fin.value, Get(returnOut, returnVars[k]))
      invariant fin.Some? ==> forall l :: (forall k :: 0 <= k < i && CanHoldInt(returnVars[k]) ==> Leq(l, Get(returnOut, returnVars[k]))) ==> Leq(l, fin.value)
    {
      var v := Get(returnOut, returnVars[i]);
      if CanHoldInt(x) && CanHoldInt(returnVars[i]) {
        fin := if fin.None? then Some(v) else Some(MeetValue(fin.value, v));
      }
      i := i + 1;
    }
    if fin.Some? {
      r := Update(r, x, fin.value).1;
    }
  }
}
