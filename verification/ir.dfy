/** The read-only facts the analyses consume from the intermediate
    representation: types, variables, field and method references, expressions
    and three-address statements, each method's IR, and the abstract objects a
    heap model hands out. */
module Ir {
  import opened Wrappers
  import opened JavaInt

  datatype PrimitiveType = Byte | Short | Int | Char | Boolean | Long | Float | Double

  datatype Type = Primitive(prim: PrimitiveType) | Reference(name: string)

  type ClassId = string

  /** A method, identified by its declaring class and its subsignature (name
      and parameter types). */
  datatype MethodId = MethodId(declaringClass: ClassId, subsignature: string)

  /** A variable of one method's IR. */
  datatype Var = Var(owner: MethodId, name: string, ty: Type)

  /** A resolved field; `isStatic` is the flag of the field's declaration. */
  datatype FieldRef = FieldRef(declaringClass: ClassId, name: string, isStatic: bool)

  datatype MethodRef = MethodRef(declaringClass: ClassId, subsignature: string, isStatic: bool)

  datatype CallKind = Static | Special | Virtual | Interface | Dynamic

  datatype ArithmeticOp = Add | Sub | Mul | Div | Rem
  datatype ConditionOp = Eq | Ne | Lt | Gt | Le | Ge
  datatype ShiftOp = Shl | Shr | Ushr
  datatype BitwiseOp = Or | And | Xor
  datatype ComparisonOp = Cmp | Cmpl | Cmpg

  /** The operator families of a binary expression. */
  datatype BinaryOp =
    | Arithmetic(aop: ArithmeticOp)
    | Condition(cop: ConditionOp)
    | Shift(sop: ShiftOp)
    | Bitwise(bop: BitwiseOp)
    | Comparison(kop: ComparisonOp)

  datatype FieldAccess =
    | StaticFieldAccess(field: FieldRef)
    | InstanceFieldAccess(base: Var, field: FieldRef)

  datatype ArrayAccess = ArrayAccess(base: Var, index: Var)

  datatype InvokeExp = InvokeExp(kind: CallKind, methodRef: MethodRef, base: Option<Var>, args: seq<Var>)

  /** Right-hand sides of definition statements. `OtherExp` stands for the
      expressions no analysis here looks into (unary, instanceof, non-int
      literals, ...). */
  datatype Exp =
    | IntLiteral(value: int32)
    | VarExp(v: Var)
    | BinaryExp(op: BinaryOp, operand1: Var, operand2: Var)
    | NewExp(ty: Type)
    | CastExp(castValue: Var, castTo: Type)
    | FieldExp(access: FieldAccess)
    | ArrayExp(arrayAccess: ArrayAccess)
    | Invocation(call: InvokeExp)
    | OtherExp

  datatype LValue = LVar(v: Var) | LField(access: FieldAccess) | LArray(arrayAccess: ArrayAccess)

  datatype ConditionExp = ConditionExp(op: ConditionOp, operand1: Var, operand2: Var)

  /** Statement kinds. `Assign` is every definition statement except calls;
      `Switch` targets and case values are node identifiers of the CFG;
      `Nop` covers goto, return, throw and the like. */
  datatype StmtKind =
    | Assign(lvalue: LValue, rvalue: Exp)
    | Invoke(result: Option<Var>, invokeExp: InvokeExp)
    | If(condition: ConditionExp)
    | Switch(key: Var, caseTargets: seq<(int32, nat)>, defaultTarget: nat)
    | Nop

  /** A statement, identified by its containing method and index. */
  datatype Stmt = Stmt(container: MethodId, index: nat, kind: StmtKind)

  datatype MethodIR = MethodIR(params: seq<Var>, thisVar: Var, returnVars: seq<Var>, stmts: seq<Stmt>)

  datatype Program = Program(methods: map<MethodId, MethodIR>)

  /** An abstract heap object: its allocation site and type. */
  datatype Obj = Obj(allocation: Stmt, ty: Type)

  /** `x = new T`. */
  predicate IsNew(s: Stmt) {
    s.kind.Assign? && s.kind.lvalue.LVar? && s.kind.rvalue.NewExp?
  }

  /** `x = y`. */
  predicate IsCopy(s: Stmt) {
    s.kind.Assign? && s.kind.lvalue.LVar? && s.kind.rvalue.VarExp?
  }

  /** `y = T.f`. */
  predicate IsStaticLoad(s: Stmt) {
    s.kind.Assign? && s.kind.lvalue.LVar? && s.kind.rvalue.FieldExp? && s.kind.rvalue.access.StaticFieldAccess?
  }

  /** `T.f = y`. */
  predicate IsStaticStore(s: Stmt) {
    s.kind.Assign? && s.kind.lvalue.LField? && s.kind.lvalue.access.StaticFieldAccess? && s.kind.rvalue.VarExp?
  }

  /** The IR of `m`; a method the program has no IR for has an empty body. */
  function IrOf(prog: Program, m: MethodId): MethodIR {
    if m in prog.methods then prog.methods[m] else MethodIR([], Var(m, "this", Reference(m.declaringClass)), [], [])
  }

  predicate IsStaticInvoke(s: Stmt) {
    s.kind.Invoke? && s.kind.invokeExp.kind == Static
  }

  /** The elements of `s` that satisfy `p`, in order. */
  function Filter<T(!new)>(s: seq<T>, p: T -> bool): (r: seq<T>)
    ensures |r| <= |s|
    ensures forall x :: x in r <==> x in s && p(x)
  {
    if s == [] then [] else (if p(s[0]) then [s[0]] else []) + Filter(s[1..], p)
  }

  function StmtsOf(prog: Program, m: MethodId): seq<Stmt> {
    IrOf(prog, m).stmts
  }

  predicate IsLoadFieldOf(v: Var, s: Stmt) {
    s.kind.Assign? && s.kind.lvalue.LVar? && s.kind.rvalue.FieldExp?
    && s.kind.rvalue.access.InstanceFieldAccess? && s.kind.rvalue.access.base == v
  }

  predicate IsStoreFieldOf(v: Var, s: Stmt) {
    s.kind.Assign? && s.kind.lvalue.LField? && s.kind.lvalue.access.InstanceFieldAccess?
    && s.kind.lvalue.access.base == v && s.kind.rvalue.VarExp?
  }

  predicate IsLoadArrayOf(v: Var, s: Stmt) {
    s.kind.Assign? && s.kind.lvalue.LVar? && s.kind.rvalue.ArrayExp? && s.kind.rvalue.arrayAccess.base == v
  }

  predicate IsStoreArrayOf(v: Var, s: Stmt) {
    s.kind.Assign? && s.kind.lvalue.LArray? && s.kind.lvalue.arrayAccess.base == v && s.kind.rvalue.VarExp?
  }

  predicate IsInvokeOn(v: Var, s: Stmt) {
    s.kind.Invoke? && s.kind.invokeExp.base == Some(v)
  }

  /** `x.getLoadFields()`: the instance-field loads `y = x.f` whose base is `x`. */
  function LoadFieldsOf(prog: Program, v: Var): seq<Stmt> {
    Filter(StmtsOf(prog, v.owner), s => IsLoadFieldOf(v, s))
  }

  /** `x.getStoreFields()`: the instance-field stores `x.f = y`. */
  function StoreFieldsOf(prog: Program, v: Var): seq<Stmt> {
    Filter(StmtsOf(prog, v.owner), s => IsStoreFieldOf(v, s))
  }

  /** `x.getLoadArrays()`: the array loads `y = x[i]`. */
  function LoadArraysOf(prog: Program, v: Var): seq<Stmt> {
    Filter(StmtsOf(prog, v.owner), s => IsLoadArrayOf(v, s))
  }

  /** `x.getStoreArrays()`: the array stores `x[i] = y`. */
  function StoreArraysOf(prog: Program, v: Var): seq<Stmt> {
    Filter(StmtsOf(prog, v.owner), s => IsStoreArrayOf(v, s))
  }

  /** `x.getInvokes()`: the calls whose receiver is `x`. */
  function InvokesOf(prog: Program, v: Var): seq<Stmt> {
    Filter(StmtsOf(prog, v.owner), s => IsInvokeOn(v, s))
  }
}
