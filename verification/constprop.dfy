/** Intraprocedural constant propagation for int-like variables: the value
    lattice, the fact maps over variables, the meet, the transfer function of a
    statement and the evaluator of right-hand sides. */
module ConstProp {
  import opened Wrappers
  import opened JavaInt
  import opened Ir

  /** Undef is the top of the lattice, NAC ("not a constant") the bottom, and
      the constants lie pairwise incomparable in between. */
  datatype Value = Undef | Const(c: int32) | NAC

  /** The lattice order: `a` lies below (is no more precise than) `b`. */
  predicate Leq(a: Value, b: Value) {
    a == NAC || b == Undef || a == b
  }

  /** `meetValue`. */
  function MeetValue(v1: Value, v2: Value): (r: Value)
    ensures Leq(r, v1) && Leq(r, v2)
    ensures forall l :: Leq(l, v1) && Leq(l, v2) ==> Leq(l, r)
  {
    if v1.NAC? || v2.NAC? then NAC
    else if v1.Const? && v2.Const? then
      if v1.c == v2.c then Const(v1.c) else NAC
    else if v1.Undef? then
      if v2.Const? then Const(v2.c) else Undef
    else
      if v1.Const? then Const(v1.c) else Undef
  }

  /** The algebraic laws the case table of the meet satisfies. */
  lemma MeetLaws(a: Value, b: Value, c: Value)
    ensures MeetValue(a, b) == MeetValue(b, a)
    ensures MeetValue(a, a) == a
    ensures MeetValue(MeetValue(a, b), c) == MeetValue(a, MeetValue(b, c))
    ensures MeetValue(Undef, a) == a && MeetValue(NAC, a) == NAC
  {
  }

  /** A data-flow fact: the value of each variable; absent variables are Undef. */
  type Fact = map<Var, Value>

  /** A fact in the form the fact class keeps: it never stores Undef. */
  ghost predicate Canonical(f: Fact) {
    forall v :: v in f ==> f[v] != Undef
  }

  function Get(f: Fact, v: Var): Value {
    if v in f then f[v] else Undef
  }

  /** `update`: storing Undef removes the variable. Also reports whether the
      stored value changed. */
  function Update(f: Fact, v: Var, val: Value): (r: (bool, Fact))
    ensures Get(r.1, v) == val
    ensures forall w :: w != v ==> (w in r.1 <==> w in f) && Get(r.1, w) == Get(f, w)
    ensures Canonical(f) ==> Canonical(r.1) && (r.0 <==> Get(f, v) != val)
  {
    if val.Undef? then (v in f, f - {v}) else (!(v in f && f[v] == val), f[v := val])
  }

  /** Two canonical facts that agree on every variable are equal. */
  lemma CanonicalExtensional(f: Fact, g: Fact)
    requires Canonical(f) && Canonical(g)
    requires forall v :: Get(f, v) == Get(g, v)
    ensures f == g
  {
    assert forall v :: v in f <==> v in g by {
      forall v ensures v in f <==> v in g {
        assert Get(f, v) == Get(g, v);
      }
    }
    assert f.Keys == g.Keys;
    assert forall v :: v in f ==> f[v] == Get(f, v) == Get(g, v) == g[v];
  }

  /** `copyFrom`: every entry of `src` is written into `target`; entries of
      `target` for variables `src` does not mention are kept. */
  method CopyFrom(target: Fact, src: Fact) returns (changed: bool, r: Fact)
    ensures forall k :: k in src ==> Get(r, k) == Get(src, k)
    ensures forall k :: k !in src ==> (k in r <==> k in target) && Get(r, k) == Get(target, k)
    ensures Canonical(target) ==> (changed <==> exists k :: k in src && Get(target, k) != src[k])
    ensures Canonical(target) && Canonical(src) ==> Canonical(r) && (changed <==> r != target)
  {
    r := target;
    changed := false;
    var rest := src.Keys;
    while rest != {}
      invariant rest <= src.Keys
      invariant forall k :: k in src && k !in rest ==> Get(r, k) == src[k]
      invariant forall k :: (k !in src || k in rest) ==> (k in r <==> k in target) && Get(r, k) == Get(target, k)
      invariant Canonical(target) ==> Canonical(r)
      invariant Canonical(target) ==>
        (changed <==> exists k :: k in src && k !in rest && Get(target, k) != src[k])
      decreases rest
    {
      var k :| k in rest;
      var upd := Update(r, k, src[k]);
      r := upd.1;
      changed := changed || upd.0;
      rest := rest - {k};
    }
    if Canonical(target) && Canonical(src) {
      if !changed {
        forall v ensures Get(r, v) == Get(target, v) {
          if v in src {
            assert Get(target, v) == src[v];
          }
        }
        CanonicalExtensional(r, target);
      } else {
        var k :| k in src && Get(target, k) != src[k];
        assert Get(r, k) != Get(target, k);
      }
    }
  }

  /** `meetInto`: meets each entry of `fact` into `target`. A variable absent
      from `target` takes the value of `fact`; all other variables of `target`
      keep their values. */
  method MeetInto(fact: Fact, target: Fact) returns (r: Fact)
    ensures forall k :: k in fact && k !in target ==> Get(r, k) == fact[k]
    ensures forall k :: k in fact && k in target ==> Get(r, k) == MeetValue(target[k], fact[k])
    ensures forall k :: k !in fact ==> Get(r, k) == Get(target, k)
    ensures Canonical(target) ==> Canonical(r)
  {
    r := target;
    var rest := fact.Keys;
    while rest != {}
      invariant rest <= fact.Keys
      invariant forall k :: k in fact && k !in rest ==> Get(r, k) == MeetValue(Get(target, k), fact[k])
      invariant forall k :: (k !in fact || k in rest) ==> Get(r, k) == Get(target, k)
      invariant Canonical(target) ==> Canonical(r)
      decreases rest
    {
      var k :| k in rest;
      var origin := Get(r, k);
      r := Update(r, k, MeetValue(origin, fact[k])).1;
      rest := rest - {k};
    }
  }

  /** The integral types of Java: `byte`, `short`, `int`, `long` and
      `char`; `boolean` and the floating-point types are not integral. */
  predicate IsIntegral(p: PrimitiveType) {
    !(p.Float? || p.Double? || p.Boolean?)
  }

  function BitWidth(p: PrimitiveType): nat {
    match p
    case Boolean => 1
    case Byte => 8
    case Short => 16
    case Char => 16
    case Int => 32
    case Long => 64
    case Float => 32
    case Double => 64
  }

  /** `canHoldInt`. */
  predicate CanHoldInt(v: Var) {
    v.ty.Primitive? && v.ty.prim in {Byte, Short, Int, Char, Boolean}
  }

  /** The int-holding variables are exactly the booleans and those of an
      integral type no wider than 32 bits. */
  lemma CanHoldIntIffNarrowIntegral(v: Var)
    ensures CanHoldInt(v) <==> v.ty.Primitive? && (v.ty.prim == Boolean || (IsIntegral(v.ty.prim) && BitWidth(v.ty.prim) <= 32))
  {
  }

  /** `newBoundaryFact`: the int-holding parameters are not constants. */
  method NewBoundaryFact(params: seq<Var>) returns (r: Fact)
    ensures Canonical(r)
    ensures forall v :: v in r <==> v in params && CanHoldInt(v)
    ensures forall v :: v in r ==> r[v] == NAC
  {
    r := map[];
    var i := 0;
    while i < |params|
      invariant 0 <= i <= |params|
      invariant forall v :: v in r <==> v in params[..i] && CanHoldInt(v)
      invariant forall v :: v in r ==> r[v] == NAC
    {
      if CanHoldInt(params[i]) {
        r := Update(r, params[i], NAC).1;
      }
      assert params[..i + 1] == params[..i] + [params[i]];
      i := i + 1;
    }
    assert params[..i] == params;
  }

  /** `newInitialFact`. */
  function NewInitialFact(): (r: Fact)
    ensures forall v :: Get(r, v) == Undef
  {
    map[]
  }

  /** Whether the comparison `a op b` holds. */
  predicate ConditionHolds(op: ConditionOp, a: int32, b: int32) {
    match op
    case Eq => a == b
    case Ne => a != b
    case Lt => a < b
    case Gt => a > b
    case Le => a <= b
    case Ge => a >= b
  }

  /** Java semantics of a binary operator on two int constants; Undef for a
      division or remainder by zero and for the long/float comparison
      operators, which the evaluator does not handle. */
  function EvalBinary(op: BinaryOp, a: int32, b: int32): (r: Value)
    ensures r.Undef? <==> ((op == Arithmetic(Div) || op == Arithmetic(Rem)) && b == 0) || op.Comparison?
    ensures op.Condition? ==> r == Const(0) || r == Const(1)
    ensures !r.NAC?
  {
    match op
    case Arithmetic(aop) =>
      (match aop
       case Add => Const(JavaInt.Add(a, b))
       case Sub => Const(JavaInt.Sub(a, b))
       case Mul => Const(JavaInt.Mul(a, b))
       case Div => if b == 0 then Undef else Const(JavaInt.Div(a, b))
       case Rem => if b == 0 then Undef else Const(JavaInt.Rem(a, b)))
    case Condition(cop) =>
      if ConditionHolds(cop, a, b) then Const(1) else Const(0)
    case Shift(sop) =>
      (match sop
       case Shl => Const(JavaInt.Shl(a, b))
       case Shr => Const(JavaInt.Shr(a, b))
       case Ushr => Const(JavaInt.Ushr(a, b)))
    case Bitwise(bop) =>
      (match bop
       case Or => Const(JavaInt.Or(a, b))
       case And => Const(JavaInt.And(a, b))
       case Xor => Const(JavaInt.Xor(a, b)))
    case Comparison(_) => Undef
  }

  /** `evaluate`: a literal is its constant, a variable reads the fact, a
      binary expression is NAC as soon as one operand is, is computed when
      both operands are constants, and is Undef otherwise; any other
      expression is NAC. */
  function Evaluate(e: Exp, fact: Fact): (r: Value)
    ensures !(e.IntLiteral? || e.VarExp? || e.BinaryExp?) ==> r.NAC?
    ensures e.BinaryExp? ==> (r.NAC? <==> Get(fact, e.operand1).NAC? || Get(fact, e.operand2).NAC?)
    ensures e.BinaryExp? && r.Const? ==> Get(fact, e.operand1).Const? && Get(fact, e.operand2).Const?
  {
    match e
    case IntLiteral(c) => Const(c)
    case VarExp(v) => Get(fact, v)
    case BinaryExp(op, x, y) =>
      var v1 := Get(fact, x);
      var v2 := Get(fact, y);
      if v1.NAC? || v2.NAC? then NAC
      else if v1.Const? && v2.Const? then EvalBinary(op, v1.c, v2.c)
      else Undef
    case _ => NAC
  }

  /** On constants, `+`, `-` and `*` give Java's `int` result: the exact
      result reduced modulo 2^32. */
  lemma EvalWrapping(a: int32, b: int32)
    ensures EvalBinary(Arithmetic(Add), a, b).Const? && Congruent(a as int + b as int, EvalBinary(Arithmetic(Add), a, b).c as int)
    ensures EvalBinary(Arithmetic(Sub), a, b).Const? && Congruent(a as int - b as int, EvalBinary(Arithmetic(Sub), a, b).c as int)
    ensures EvalBinary(Arithmetic(Mul), a, b).Const? && Congruent(a as int * b as int, EvalBinary(Arithmetic(Mul), a, b).c as int)
  {
    assert EvalBinary(Arithmetic(Add), a, b) == Const(JavaInt.Add(a, b));
    assert EvalBinary(Arithmetic(Sub), a, b) == Const(JavaInt.Sub(a, b));
    assert EvalBinary(Arithmetic(Mul), a, b) == Const(JavaInt.Mul(a, b));
  }

  /** On constants, `/` gives the exact quotient rounded toward zero,
      reduced modulo 2^32, and `%` exactly the remainder that quotient
      leaves; both give Undef for a zero divisor. */
  lemma EvalDivision(a: int32, b: int32)
    ensures b == 0 ==> EvalBinary(Arithmetic(Div), a, b) == Undef && EvalBinary(Arithmetic(Rem), a, b) == Undef
    ensures b != 0 ==> EvalBinary(Arithmetic(Div), a, b).Const?
                       && Congruent(TruncQuot(a as int, b as int), EvalBinary(Arithmetic(Div), a, b).c as int)
    ensures b != 0 ==> EvalBinary(Arithmetic(Rem), a, b).Const?
                       && EvalBinary(Arithmetic(Rem), a, b).c as int == a as int - b as int * TruncQuot(a as int, b as int)
  {
    if b != 0 {
      var q := TruncQuot(a as int, b as int);
      var d := JavaInt.Div(a, b);
      assert Congruent(q, d as int);
      assert EvalBinary(Arithmetic(Div), a, b) == Const(d);
      var m := JavaInt.Rem(a, b);
      assert m as int == a as int - b as int * q;
      assert EvalBinary(Arithmetic(Rem), a, b) == Const(m);
    }
  }

  /** On constants, `<<` multiplies by 2 to the shift distance modulo
      2^32, `>>` divides by it rounding down, and `>>>` by a nonzero
      distance divides the unsigned reading of the bits. */
  lemma EvalShifts(a: int32, b: int32)
    ensures EvalBinary(Shift(Shl), a, b).Const? && Congruent(a as int * Pow2(ShiftDistance(b)), EvalBinary(Shift(Shl), a, b).c as int)
    ensures EvalBinary(Shift(Shr), a, b).Const? && EvalBinary(Shift(Shr), a, b).c as int == a as int / Pow2(ShiftDistance(b))
    ensures ShiftDistance(b) > 0 ==> EvalBinary(Shift(Ushr), a, b).Const?
                                     && EvalBinary(Shift(Ushr), a, b).c as int == Unsigned(a) / Pow2(ShiftDistance(b))
  {
    assert EvalBinary(Shift(Shl), a, b) == Const(JavaInt.Shl(a, b));
    assert EvalBinary(Shift(Shr), a, b) == Const(JavaInt.Shr(a, b));
    assert EvalBinary(Shift(Ushr), a, b) == Const(JavaInt.Ushr(a, b));
  }

  /** The operation a bitwise operator performs on bit patterns. */
  function BitOp(bop: BitwiseOp, x: bv32, y: bv32): bv32 {
    match bop
    case And => x & y
    case Or => x | y
    case Xor => x ^ y
  }

  /** On constants, `&`, `|` and `^` act on the two's-complement bits. */
  lemma EvalBitwise(bop: BitwiseOp, a: int32, b: int32)
    ensures EvalBinary(Bitwise(bop), a, b).Const?
    ensures ToBits(EvalBinary(Bitwise(bop), a, b).c) == BitOp(bop, ToBits(a), ToBits(b))
  {
    match bop {
      case And => assert EvalBinary(Bitwise(bop), a, b) == Const(JavaInt.And(a, b));
      case Or => assert EvalBinary(Bitwise(bop), a, b) == Const(JavaInt.Or(a, b));
      case Xor => assert EvalBinary(Bitwise(bop), a, b) == Const(JavaInt.Xor(a, b));
    }
  }

  /** Facts ordered pointwise by the lattice order. */
  ghost predicate FactLeq(f: Fact, g: Fact) {
    forall v :: Leq(Get(f, v), Get(g, v))
  }

  /** The evaluator is monotone: a less precise input fact never yields a more
      precise value. */
  lemma EvaluateMonotone(e: Exp, f: Fact, g: Fact)
    requires FactLeq(f, g)
    ensures Leq(Evaluate(e, f), Evaluate(e, g))
  {
    if e.BinaryExp? {
      var x, y := e.operand1, e.operand2;
      assert Leq(Get(f, x), Get(g, x)) && Leq(Get(f, y), Get(g, y));
    } else if e.VarExp? {
      assert Leq(Get(f, e.v), Get(g, e.v));
    }
  }

  /** The variable a definition statement assigns, when it is a variable, and
      the right-hand side it evaluates. A call defines its result variable
      from an invocation expression. */
  function DefinedVar(s: Stmt): Option<Var> {
    match s.kind
    case Assign(LVar(v), _) => Some(v)
    case Invoke(res, _) => res
    case _ => None
  }

  predicate IsDefinition(s: Stmt) {
    s.kind.Assign? || s.kind.Invoke?
  }

  function RhsOf(s: Stmt): Exp
    requires IsDefinition(s)
  {
    if s.kind.Assign? then s.kind.rvalue else Invocation(s.kind.invokeExp)
  }

  /** The int-holding variable a statement gives a new value. */
  function GenVar(s: Stmt): Option<Var> {
    if IsDefinition(s) && DefinedVar(s).Some? && CanHoldInt(DefinedVar(s).value)
    then DefinedVar(s) else None
  }

  /** `transferNode`: OUT takes every entry of IN; a definition of an
      int-holding variable also writes the value of its right-hand side,
      except that an Undef value is not written and OUT keeps the variable's
      old entry. Reports whether OUT changed. */
  method TransferNode(s: Stmt, fact: Fact, out: Fact) returns (changed: bool, out': Fact)
    requires Canonical(fact) && Canonical(out)
    ensures Canonical(out')
    ensures changed <==> out' != out
    ensures forall v :: Some(v) != GenVar(s) && v in fact ==> Get(out', v) == fact[v]
    ensures forall v :: Some(v) != GenVar(s) && v !in fact ==> Get(out', v) == Get(out, v)
    ensures GenVar(s).Some? ==>
              var x := GenVar(s).value;
              var gen := Evaluate(RhsOf(s), fact);
              Get(out', x) == (if gen.Undef? then Get(out, x) else gen)
  {
    if IsDefinition(s) {
      var gen := Evaluate(RhsOf(s), fact);
      var _, tmp := CopyFrom(NewInitialFact(), fact);
      assert tmp == fact by {
        CanonicalExtensional(tmp, fact);
      }
      var lvar := DefinedVar(s);
      if lvar.Some? && CanHoldInt(lvar.value) {
        tmp := Update(tmp, lvar.value, gen).1;
      }
      changed, out' := CopyFrom(out, tmp);
    } else {
      changed, out' := CopyFrom(out, fact);
    }
  }
}
