/** Dead-code detection: a depth-first walk over a method's control-flow graph
    that marks the statements it keeps, skipping branches that constant
    propagation decides, unreachable statements and assignments to dead
    variables whose right-hand side has no side effect. Every statement of the
    method that ends up unmarked is dead. */
module DeadCode {
  import opened Wrappers
  import opened JavaInt
  import opened Ir
  import opened ConstProp

  datatype EdgeKind =
    | Entry | FallThrough | Goto | IfTrue | IfFalse | SwitchCase | SwitchDefault
    | Return | CaughtException | UncaughtException

  datatype CfgEdge = CfgEdge(kind: EdgeKind, source: nat, target: nat)

  /** A control-flow graph whose nodes are statement indices; `edges` lists
      its edge set. A node without an entry in `stmts` is a no-op. */
  datatype Cfg = Cfg(entry: nat, stmts: map<nat, Stmt>, edges: seq<CfgEdge>)

  /** The results the detection consumes: the IN fact of constant propagation
      and the live-out variables of each node (absent nodes: empty). */
  datatype Inputs = Inputs(constIn: map<nat, Fact>, liveOut: map<nat, set<Var>>)

  function StmtAt(g: Cfg, n: nat): Stmt {
    if n in g.stmts then g.stmts[n] else Stmt(MethodId("", ""), n, Nop)
  }

  function InFact(inp: Inputs, n: nat): Fact {
    if n in inp.constIn then inp.constIn[n] else map[]
  }

  function LiveOut(inp: Inputs, n: nat): set<Var> {
    if n in inp.liveOut then inp.liveOut[n] else {}
  }

  /** The elements of `s`, each once, in order of first occurrence. */
  function Dedup(s: seq<nat>): (r: seq<nat>)
    ensures forall x :: x in r <==> x in s
    ensures forall i, j :: 0 <= i < j < |r| ==> r[i] != r[j]
  {
    if s == [] then []
    else
      var rest := Dedup(s[..|s| - 1]);
      assert forall x :: x in s <==> x in s[..|s| - 1] || x == s[|s| - 1];
      if s[|s| - 1] in rest then rest else rest + [s[|s| - 1]]
  }

  function OutEdges(g: Cfg, n: nat): (r: seq<CfgEdge>)
    ensures forall e :: e in r <==> e in g.edges && e.source == n
  {
    Filter(g.edges, (e: CfgEdge) => e.source == n)
  }

  function Targets(es: seq<CfgEdge>): (r: seq<nat>)
    ensures |r| == |es|
    ensures forall i :: 0 <= i < |es| ==> r[i] == es[i].target
    ensures forall t :: t in r <==> exists e :: e in es && e.target == t
  {
    if es == [] then []
    else
      var rest := Targets(es[1..]);
      assert forall e :: e in es <==> e == es[0] || e in es[1..];
      [es[0].target] + rest
  }

  /** `getSuccsOf`. */
  function SuccsOf(g: Cfg, n: nat): (r: seq<nat>)
    ensures forall t :: t in r <==> exists e :: e in g.edges && e.source == n && e.target == t
  {
    var es := OutEdges(g, n);
    var ts := Targets(es);
    Dedup(ts)
  }

  /** `getInDegreeOf(n) == 0`. */
  predicate NoInEdge(g: Cfg, n: nat) {
    forall e :: e in g.edges ==> e.target != n
  }

  /** `hasNoSideEffect`: allocation, casts, field and array accesses, and
      integer division and remainder may have effects; everything else has
      none. */
  predicate HasNoSideEffect(e: Exp) {
    if e.NewExp? || e.CastExp? || e.FieldExp? || e.ArrayExp? then false
    else if e.BinaryExp? && e.op.Arithmetic? then !(e.op.aop.Div? || e.op.aop.Rem?)
    else true
  }

  /** The arithmetic operators flagged as side-effecting are exactly those
      whose constant evaluation can fail. */
  lemma SideEffectIffEvaluationCanFail(aop: ArithmeticOp, x: Var, y: Var)
    ensures !HasNoSideEffect(BinaryExp(Arithmetic(aop), x, y))
            <==> exists a: int32, b: int32 :: EvalBinary(Arithmetic(aop), a, b).Undef?
  {
    if aop.Div? || aop.Rem? {
      assert EvalBinary(Arithmetic(aop), 1, 0).Undef?;
    }
  }

  /** A definition of a variable that is not live afterwards, by a right-hand
      side without side effects. */
  predicate IsDeadAssignment(g: Cfg, inp: Inputs, n: nat) {
    var s := StmtAt(g, n);
    IsDefinition(s) && DefinedVar(s).Some? && DefinedVar(s).value !in LiveOut(inp, n)
    && HasNoSideEffect(RhsOf(s))
  }

  /** An `if` whose operands are both constants, or a `switch` whose key is a
      constant, in the node's IN fact: only some of its successors are taken. */
  predicate Decided(g: Cfg, inp: Inputs, n: nat) {
    var k := StmtAt(g, n).kind;
    var fact := InFact(inp, n);
    (k.If? && Get(fact, k.condition.operand1).Const? && Get(fact, k.condition.operand2).Const?)
    || (k.Switch? && Get(fact, k.key).Const?)
  }

  /** The case values of a switch. */
  function CaseValues(cases: seq<(int32, nat)>): (r: seq<int32>)
    ensures |r| == |cases|
    ensures forall i :: 0 <= i < |cases| ==> r[i] == cases[i].0
    ensures forall c :: c in r <==> exists t :: (c, t) in cases
  {
    if cases == [] then []
    else
      var rest := CaseValues(cases[1..]);
      assert forall p :: p in cases <==> p == cases[0] || p in cases[1..];
      [cases[0].0] + rest
  }

  /** The targets of the cases whose value is `c`, in order. */
  function CaseTargetsOf(cases: seq<(int32, nat)>, c: int32): (r: seq<nat>)
    ensures forall t :: t in r <==> (c, t) in cases
  {
    if cases == [] then []
    else (if cases[0].0 == c then [cases[0].1] else []) + CaseTargetsOf(cases[1..], c)
  }

  /** The nodes a decided branch continues at: the targets of the IF_TRUE out
      edges when the condition holds and of the IF_FALSE ones otherwise; for
      a switch the targets of the cases matching the key, or the default
      target when no case matches. */
  function ChosenTargets(g: Cfg, inp: Inputs, n: nat): (r: seq<nat>)
    requires Decided(g, inp, n)
    ensures StmtAt(g, n).kind.If? ==>
              var cond := StmtAt(g, n).kind.condition;
              var fact := InFact(inp, n);
              var kind := if ConditionHolds(cond.op, Get(fact, cond.operand1).c, Get(fact, cond.operand2).c)
                          then IfTrue else IfFalse;
              forall t :: t in r <==> exists e :: e in g.edges && e.source == n && e.kind == kind && e.target == t
    ensures StmtAt(g, n).kind.Switch? ==>
              var sw := StmtAt(g, n).kind;
              var c := Get(InFact(inp, n), sw.key).c;
              if (exists t :: (c, t) in sw.caseTargets) then forall t :: t in r <==> (c, t) in sw.caseTargets
              else r == [sw.defaultTarget]
  {
    var k := StmtAt(g, n).kind;
    var fact := InFact(inp, n);
    if k.If? then
      var holds := ConditionHolds(k.condition.op, Get(fact, k.condition.operand1).c, Get(fact, k.condition.operand2).c);
      var kind := if holds then IfTrue else IfFalse;
      var es := Filter(OutEdges(g, n), (e: CfgEdge) => e.kind == kind);
      var ts := Targets(es);
      ts
    else
      var c := Get(fact, k.key).c;
      if c in CaseValues(k.caseTargets) then
        CaseTargetsOf(k.caseTargets, c)
      else
        [k.defaultTarget]
  }

  /** What the loop of `dfs` does at a successor that is already marked. The
      code returns there, abandoning the remaining successors; a depth-first
      walk evidently means to skip that successor and go on with the next. */
  datatype Scan = StopAtMarked | SkipMarked

  /** `dfs(cur)`: walks the successors of `cur` in order; `scan` says what
      happens at one that is already marked. `fuel` bounds the recursion
      depth; with none left the walk does nothing. */
  function Dfs(g: Cfg, inp: Inputs, scan: Scan, cur: nat, valid: set<nat>, fuel: nat): set<nat>
    decreases fuel, 0, 0
  {
    if fuel == 0 then valid else Succs(g, inp, scan, SuccsOf(g, cur), valid, fuel - 1)
  }

  /** The loop of `dfs` over the successors `ss`. */
  function Succs(g: Cfg, inp: Inputs, scan: Scan, ss: seq<nat>, valid: set<nat>, fuel: nat): set<nat>
    decreases fuel, 3, |ss|
  {
    if ss == [] then valid
    else if ss[0] in valid then
      if scan.StopAtMarked? then valid else Succs(g, inp, scan, ss[1..], valid, fuel)
    else Succs(g, inp, scan, ss[1..], Visit(g, inp, scan, ss[0], valid, fuel), fuel)
  }

  /** The body of the loop of `dfs` for one unmarked successor `s`: mark it,
      then unmark it again if it has no predecessor (and stop there) or if it
      is a dead assignment; continue at the chosen targets of a decided branch
      (marking each) and at the successors of `s` otherwise. */
  function Visit(g: Cfg, inp: Inputs, scan: Scan, s: nat, valid: set<nat>, fuel: nat): set<nat>
    decreases fuel, 2, 0
  {
    var marked := valid + {s};
    if NoInEdge(g, s) && s != g.entry then marked - {s}
    else if IsDefinition(StmtAt(g, s)) then
      Dfs(g, inp, scan, s, if IsDeadAssignment(g, inp, s) then marked - {s} else marked, fuel)
    else if Decided(g, inp, s) then FollowAll(g, inp, scan, ChosenTargets(g, inp, s), marked, fuel)
    else Dfs(g, inp, scan, s, marked, fuel)
  }

  /** Marks each of `ts` and walks on from it, in order. */
  function FollowAll(g: Cfg, inp: Inputs, scan: Scan, ts: seq<nat>, valid: set<nat>, fuel: nat): set<nat>
    decreases fuel, 1, |ts|
  {
    if ts == [] then valid
    else FollowAll(g, inp, scan, ts[1..], Dfs(g, inp, scan, ts[0], valid + {ts[0]}, fuel), fuel)
  }

  /** `analyze` as written: the statements of the method that the walk from
      the entry leaves unmarked, with the loop returning at the first marked
      successor. */
  function AnalyzeAsWritten(g: Cfg, inp: Inputs, irStmts: seq<nat>, fuel: nat): (r: set<nat>)
    ensures forall n :: n in r ==> n in irStmts && n !in Dfs(g, inp, StopAtMarked, g.entry, {}, fuel)
  {
    var valid := Dfs(g, inp, StopAtMarked, g.entry, {}, fuel);
    set n | n in irStmts && n !in valid
  }

  /** `analyze` with the loop skipping marked successors instead. */
  function Analyze(g: Cfg, inp: Inputs, irStmts: seq<nat>, fuel: nat): (r: set<nat>)
    ensures forall n :: n in r ==> n in irStmts && n !in Dfs(g, inp, SkipMarked, g.entry, {}, fuel)
  {
    var valid := Dfs(g, inp, SkipMarked, g.entry, {}, fuel);
    set n | n in irStmts && n !in valid
  }

  /** A successor `s` of an expanded node is admitted by `(M, X)` when it is
      in `M` and the walk's continuation from it stays in `(M, X)`: its chosen
      targets are in both sets when it is a decided branch, and it is itself
      expanded otherwise. */
  ghost predicate Admitted(g: Cfg, inp: Inputs, M: set<nat>, X: set<nat>, s: nat) {
    s in M
    && (if Decided(g, inp, s) then forall t :: t in ChosenTargets(g, inp, s) ==> t in M && t in X
        else s in X)
  }

  /** `M` is closed for the expanded nodes `X`: the walk, pruned at decided
      branches, never leaves `M`. */
  ghost predicate Closed(g: Cfg, inp: Inputs, M: set<nat>, X: set<nat>) {
    forall n, s :: n in X && s in SuccsOf(g, n) ==> Admitted(g, inp, M, X, s)
  }

  lemma {:induction false} DfsWithin(g: Cfg, inp: Inputs, scan: Scan, M: set<nat>, X: set<nat>, cur: nat, valid: set<nat>, fuel: nat)
    requires Closed(g, inp, M, X) && cur in X
    ensures Dfs(g, inp, scan, cur, valid, fuel) <= valid + M
    decreases fuel, 0, 0
  {
    if fuel > 0 {
      SuccsWithin(g, inp, scan, M, X, SuccsOf(g, cur), valid, fuel - 1);
    }
  }

  lemma {:induction false} SuccsWithin(g: Cfg, inp: Inputs, scan: Scan, M: set<nat>, X: set<nat>, ss: seq<nat>, valid: set<nat>, fuel: nat)
    requires Closed(g, inp, M, X)
    requires forall s :: s in ss ==> Admitted(g, inp, M, X, s)
    ensures Succs(g, inp, scan, ss, valid, fuel) <= valid + M
    decreases fuel, 3, |ss|
  {
    if ss != [] {
      if ss[0] !in valid {
        var v := Visit(g, inp, scan, ss[0], valid, fuel);
        VisitWithin(g, inp, scan, M, X, ss[0], valid, fuel);
        SuccsWithin(g, inp, scan, M, X, ss[1..], v, fuel);
      } else if scan.SkipMarked? {
        SuccsWithin(g, inp, scan, M, X, ss[1..], valid, fuel);
      }
    }
  }

  lemma {:induction false} VisitWithin(g: Cfg, inp: Inputs, scan: Scan, M: set<nat>, X: set<nat>, s: nat, valid: set<nat>, fuel: nat)
    requires Closed(g, inp, M, X) && Admitted(g, inp, M, X, s)
    ensures Visit(g, inp, scan, s, valid, fuel) <= valid + M
    decreases fuel, 2, 0
  {
    var marked := valid + {s};
    if NoInEdge(g, s) && s != g.entry {
    } else if IsDefinition(StmtAt(g, s)) {
      assert !Decided(g, inp, s);
      DfsWithin(g, inp, scan, M, X, s, if IsDeadAssignment(g, inp, s) then marked - {s} else marked, fuel);
    } else if Decided(g, inp, s) {
      FollowAllWithin(g, inp, scan, M, X, ChosenTargets(g, inp, s), marked, fuel);
    } else {
      DfsWithin(g, inp, scan, M, X, s, marked, fuel);
    }
  }

  lemma {:induction false} FollowAllWithin(g: Cfg, inp: Inputs, scan: Scan, M: set<nat>, X: set<nat>, ts: seq<nat>, valid: set<nat>, fuel: nat)
    requires Closed(g, inp, M, X)
    requires forall t :: t in ts ==> t in M && t in X
    ensures FollowAll(g, inp, scan, ts, valid, fuel) <= valid + M
    decreases fuel, 1, |ts|
  {
    if ts != [] {
      DfsWithin(g, inp, scan, M, X, ts[0], valid + {ts[0]}, fuel);
      FollowAllWithin(g, inp, scan, M, X, ts[1..], Dfs(g, inp, scan, ts[0], valid + {ts[0]}, fuel), fuel);
    }
  }

  /** Soundness of the report: a statement outside every pruned walk from the
      entry is reported dead, whatever the fuel, by both readings of the
      loop. */
  lemma AnalyzeReportsUnreached(g: Cfg, inp: Inputs, irStmts: seq<nat>, fuel: nat, M: set<nat>, X: set<nat>)
    requires Closed(g, inp, M, X) && g.entry in X
    ensures forall n :: n in irStmts && n !in M ==> n in Analyze(g, inp, irStmts, fuel)
    ensures forall n :: n in irStmts && n !in M ==> n in AnalyzeAsWritten(g, inp, irStmts, fuel)
  {
    DfsWithin(g, inp, SkipMarked, M, X, g.entry, {}, fuel);
    DfsWithin(g, inp, StopAtMarked, M, X, g.entry, {}, fuel);
  }

  /** The walk never unmarks a statement it was given marked: only a
      successor that was unmarked when visited is ever removed again. So a
      statement once marked is never reported. */
  lemma {:induction false} DfsGrows(g: Cfg, inp: Inputs, scan: Scan, cur: nat, valid: set<nat>, fuel: nat)
    ensures valid <= Dfs(g, inp, scan, cur, valid, fuel)
    decreases fuel, 0, 0
  {
    if fuel > 0 {
      SuccsGrows(g, inp, scan, SuccsOf(g, cur), valid, fuel - 1);
    }
  }

  lemma {:induction false} SuccsGrows(g: Cfg, inp: Inputs, scan: Scan, ss: seq<nat>, valid: set<nat>, fuel: nat)
    ensures valid <= Succs(g, inp, scan, ss, valid, fuel)
    decreases fuel, 3, |ss|
  {
    if ss != [] {
      if ss[0] !in valid {
        VisitGrows(g, inp, scan, ss[0], valid, fuel);
        SuccsGrows(g, inp, scan, ss[1..], Visit(g, inp, scan, ss[0], valid, fuel), fuel);
      } else if scan.SkipMarked? {
        SuccsGrows(g, inp, scan, ss[1..], valid, fuel);
      }
    }
  }

  lemma {:induction false} VisitGrows(g: Cfg, inp: Inputs, scan: Scan, s: nat, valid: set<nat>, fuel: nat)
    requires s !in valid
    ensures valid <= Visit(g, inp, scan, s, valid, fuel)
    decreases fuel, 2, 0
  {
    var marked := valid + {s};
    if NoInEdge(g, s) && s != g.entry {
    } else if IsDefinition(StmtAt(g, s)) {
      DfsGrows(g, inp, scan, s, if IsDeadAssignment(g, inp, s) then marked - {s} else marked, fuel);
    } else if Decided(g, inp, s) {
      FollowAllGrows(g, inp, scan, ChosenTargets(g, inp, s), marked, fuel);
    } else {
      DfsGrows(g, inp, scan, s, marked, fuel);
    }
  }

  lemma {:induction false} FollowAllGrows(g: Cfg, inp: Inputs, scan: Scan, ts: seq<nat>, valid: set<nat>, fuel: nat)
    ensures valid <= FollowAll(g, inp, scan, ts, valid, fuel)
    decreases fuel, 1, |ts|
  {
    if ts != [] {
      DfsGrows(g, inp, scan, ts[0], valid + {ts[0]}, fuel);
      FollowAllGrows(g, inp, scan, ts[1..], Dfs(g, inp, scan, ts[0], valid + {ts[0]}, fuel), fuel);
    }
  }

  /** Visiting `s` leaves it marked: it is the entry or has a predecessor,
      and it is not a dead assignment. */
  predicate StaysMarked(g: Cfg, inp: Inputs, s: nat) {
    (!NoInEdge(g, s) || s == g.entry) && !IsDeadAssignment(g, inp, s)
  }

  /** A visited statement that stays marked is in the walk's result. */
  lemma VisitMarks(g: Cfg, inp: Inputs, scan: Scan, s: nat, valid: set<nat>, fuel: nat)
    requires s !in valid && StaysMarked(g, inp, s)
    ensures s in Visit(g, inp, scan, s, valid, fuel)
  {
    var marked := valid + {s};
    if IsDefinition(StmtAt(g, s)) {
      DfsGrows(g, inp, scan, s, marked, fuel);
    } else if Decided(g, inp, s) {
      FollowAllGrows(g, inp, scan, ChosenTargets(g, inp, s), marked, fuel);
    } else {
      DfsGrows(g, inp, scan, s, marked, fuel);
    }
  }

  lemma {:induction false} FollowAllMarks(g: Cfg, inp: Inputs, scan: Scan, ts: seq<nat>, valid: set<nat>, fuel: nat)
    ensures forall t :: t in ts ==> t in FollowAll(g, inp, scan, ts, valid, fuel)
    decreases |ts|
  {
    if ts != [] {
      var v := Dfs(g, inp, scan, ts[0], valid + {ts[0]}, fuel);
      DfsGrows(g, inp, scan, ts[0], valid + {ts[0]}, fuel);
      FollowAllGrows(g, inp, scan, ts[1..], v, fuel);
      FollowAllMarks(g, inp, scan, ts[1..], v, fuel);
    }
  }

  /** A decided branch keeps every target it chooses: the IF_TRUE targets of
      a condition that holds, the IF_FALSE ones otherwise, and the matching
      cases or the default target of a switch. */
  lemma VisitFollowsChosen(g: Cfg, inp: Inputs, scan: Scan, s: nat, valid: set<nat>, fuel: nat)
    requires s !in valid && (!NoInEdge(g, s) || s == g.entry) && Decided(g, inp, s)
    ensures forall t :: t in ChosenTargets(g, inp, s) ==> t in Visit(g, inp, scan, s, valid, fuel)
  {
    assert !IsDefinition(StmtAt(g, s));
    FollowAllMarks(g, inp, scan, ChosenTargets(g, inp, s), valid + {s}, fuel);
  }

  /** With fuel left, the walk from `cur` keeps its first successor when that
      one is unmarked and stays marked, under either reading of the loop. */
  lemma DfsMarksFirst(g: Cfg, inp: Inputs, scan: Scan, cur: nat, valid: set<nat>, fuel: nat)
    requires fuel > 0 && |SuccsOf(g, cur)| > 0
    requires SuccsOf(g, cur)[0] !in valid && StaysMarked(g, inp, SuccsOf(g, cur)[0])
    ensures SuccsOf(g, cur)[0] in Dfs(g, inp, scan, cur, valid, fuel)
  {
    var ss := SuccsOf(g, cur);
    var v := Visit(g, inp, scan, ss[0], valid, fuel - 1);
    assert Dfs(g, inp, scan, cur, valid, fuel) == Succs(g, inp, scan, ss[1..], v, fuel - 1);
    VisitMarks(g, inp, scan, ss[0], valid, fuel - 1);
    SuccsGrows(g, inp, scan, ss[1..], v, fuel - 1);
  }

  lemma {:induction false} SuccsMarksAll(g: Cfg, inp: Inputs, ss: seq<nat>, valid: set<nat>, fuel: nat)
    ensures forall s :: s in ss && StaysMarked(g, inp, s) ==> s in Succs(g, inp, SkipMarked, ss, valid, fuel)
    decreases |ss|
  {
    if ss != [] {
      var v := if ss[0] in valid then valid else Visit(g, inp, SkipMarked, ss[0], valid, fuel);
      if ss[0] !in valid {
        VisitGrows(g, inp, SkipMarked, ss[0], valid, fuel);
        if StaysMarked(g, inp, ss[0]) {
          VisitMarks(g, inp, SkipMarked, ss[0], valid, fuel);
        }
      }
      SuccsGrows(g, inp, SkipMarked, ss[1..], v, fuel);
      SuccsMarksAll(g, inp, ss[1..], v, fuel);
    }
  }

  /** Skipping marked successors, the walk from `cur` keeps every successor
      that stays marked, marked before or not. */
  lemma DfsMarksSuccs(g: Cfg, inp: Inputs, cur: nat, valid: set<nat>, fuel: nat)
    requires fuel > 0
    ensures forall s :: s in SuccsOf(g, cur) && StaysMarked(g, inp, s) ==> s in Dfs(g, inp, SkipMarked, cur, valid, fuel)
  {
    SuccsMarksAll(g, inp, SuccsOf(g, cur), valid, fuel - 1);
  }

  /** The successors of the entry that stay marked are never reported. */
  lemma AnalyzeKeepsEntrySuccs(g: Cfg, inp: Inputs, irStmts: seq<nat>, fuel: nat)
    requires fuel > 0
    ensures forall s :: s in SuccsOf(g, g.entry) && StaysMarked(g, inp, s) ==> s !in Analyze(g, inp, irStmts, fuel)
    ensures |SuccsOf(g, g.entry)| > 0 && StaysMarked(g, inp, SuccsOf(g, g.entry)[0]) ==>
              SuccsOf(g, g.entry)[0] !in AnalyzeAsWritten(g, inp, irStmts, fuel)
  {
    DfsMarksSuccs(g, inp, g.entry, {}, fuel);
    if |SuccsOf(g, g.entry)| > 0 && StaysMarked(g, inp, SuccsOf(g, g.entry)[0]) {
      DfsMarksFirst(g, inp, StopAtMarked, g.entry, {}, fuel);
    }
  }

  /** A dead assignment is unmarked, but the walk still continues past it. */
  lemma DeadAssignmentSkipped(g: Cfg, inp: Inputs, scan: Scan, s: nat, valid: set<nat>, fuel: nat)
    requires s !in valid && (!NoInEdge(g, s) || s == g.entry)
    requires IsDeadAssignment(g, inp, s)
    ensures Visit(g, inp, scan, s, valid, fuel) == Dfs(g, inp, scan, s, valid, fuel)
  {
    assert valid + {s} - {s} == valid;
  }

  /** The walk past a dead assignment keeps the next statement when that one
      is unmarked and stays marked. */
  lemma DeadAssignmentContinues(g: Cfg, inp: Inputs, scan: Scan, s: nat, valid: set<nat>, fuel: nat)
    requires fuel > 0 && s !in valid && (!NoInEdge(g, s) || s == g.entry) && IsDeadAssignment(g, inp, s)
    requires |SuccsOf(g, s)| > 0 && SuccsOf(g, s)[0] !in valid && StaysMarked(g, inp, SuccsOf(g, s)[0])
    ensures s !in valid && SuccsOf(g, s)[0] in Visit(g, inp, scan, s, valid, fuel)
  {
    DeadAssignmentSkipped(g, inp, scan, s, valid, fuel);
    DfsMarksFirst(g, inp, scan, s, valid, fuel);
  }

  /** A statement without predecessors other than the entry is left unmarked
      and nothing after it is walked from it. The walk never takes this
      branch: every successor it visits has the edge it was reached by. */
  lemma NoPredecessorUnmarked(g: Cfg, inp: Inputs, scan: Scan, s: nat, valid: set<nat>, fuel: nat)
    requires s !in valid && NoInEdge(g, s) && s != g.entry
    ensures Visit(g, inp, scan, s, valid, fuel) == valid
  {
    assert valid + {s} - {s} == valid;
  }

  /** As written, the walk from a node stops at once when its first successor
      is marked, even if later successors are not. */
  lemma StopsAtFirstMarked(g: Cfg, inp: Inputs, cur: nat, valid: set<nat>, fuel: nat)
    requires |SuccsOf(g, cur)| > 0 && SuccsOf(g, cur)[0] in valid
    ensures Dfs(g, inp, StopAtMarked, cur, valid, fuel) == valid
  {
  }
  /** A do-while loop `1: body; 2: if (x != x) goto 1; 3: after` whose
      IF_TRUE back edge is listed before the IF_FALSE exit; the condition is
      not a constant, so the `if` is not decided. */
  function DoWhile(x: Var): Cfg {
    Cfg(0, map[2 := Stmt(x.owner, 2, If(ConditionExp(Ne, x, x)))],
        [CfgEdge(Entry, 0, 1), CfgEdge(FallThrough, 1, 2), CfgEdge(IfTrue, 2, 1), CfgEdge(IfFalse, 2, 3)])
  }

  lemma DoWhileOutEdges(x: Var, n: nat)
    ensures var es := DoWhile(x).edges;
            OutEdges(DoWhile(x), n) == (if n == 0 then [es[0]] else []) + (if n == 1 then [es[1]] else [])
                                      + (if n == 2 then [es[2], es[3]] else [])
  {
    var es := DoWhile(x).edges;
    var p := (e: CfgEdge) => e.source == n;
    assert OutEdges(DoWhile(x), n) == Filter(es, p);
    assert Filter(es[3..], p) == (if n == 2 then [es[3]] else []);
    assert Filter(es[2..], p) == (if n == 2 then [es[2], es[3]] else []) by {
      assert es[2..][1..] == es[3..];
    }
    assert Filter(es[1..], p) == (if n == 1 then [es[1]] else []) + Filter(es[2..], p) by {
      assert es[1..][1..] == es[2..];
    }
    assert es[1..] == es[0..][1..];
  }

  lemma DoWhileSuccsOf(x: Var, n: nat, ts: seq<nat>)
    requires (n == 0 && ts == [1]) || (n == 1 && ts == [2]) || (n == 2 && ts == [1, 3])
    ensures SuccsOf(DoWhile(x), n) == ts
  {
    var es := DoWhile(x).edges;
    DoWhileOutEdges(x, n);
    var out := OutEdges(DoWhile(x), n);
    assert |out| == |ts| && forall k :: 0 <= k < |ts| ==> out[k].target == ts[k];
    assert Targets(out) == ts;
    assert Dedup([1]) == [1] && Dedup([2]) == [2];
    assert ts == [1, 3] ==> Dedup(ts) == [1, 3] by {
      assert [1, 3][..1] == [1];
    }
  }

  /** Every statement of `DoWhile` has a predecessor, none is a definition,
      and the `if` is not decided. */
  lemma DoWhileStmts(x: Var, n: nat)
    requires 1 <= n <= 3
    ensures !NoInEdge(DoWhile(x), n) && !IsDefinition(StmtAt(DoWhile(x), n))
    ensures !Decided(DoWhile(x), Inputs(map[], map[]), n)
  {
    var g := DoWhile(x);
    assert g.edges[n - 1 + (if n == 3 then 1 else 0)].target == n;
    assert n != 2 ==> StmtAt(g, n).kind.Nop?;
  }

  /** Visiting a statement with a predecessor that is neither a definition
      nor a decided branch marks it and walks on from it. */
  lemma VisitPlain(g: Cfg, inp: Inputs, scan: Scan, s: nat, valid: set<nat>, fuel: nat)
    requires !NoInEdge(g, s) && !IsDefinition(StmtAt(g, s)) && !Decided(g, inp, s)
    ensures Visit(g, inp, scan, s, valid, fuel) == Dfs(g, inp, scan, s, valid + {s}, fuel)
  {
  }

  /** The walk from a node with one unmarked successor visits it. */
  lemma DfsSingle(g: Cfg, inp: Inputs, scan: Scan, cur: nat, s: nat, valid: set<nat>, fuel: nat)
    requires fuel > 0 && SuccsOf(g, cur) == [s] && s !in valid
    ensures Dfs(g, inp, scan, cur, valid, fuel) == Visit(g, inp, scan, s, valid, fuel - 1)
  {
    var v := Visit(g, inp, scan, s, valid, fuel - 1);
    assert Dfs(g, inp, scan, cur, valid, fuel) == Succs(g, inp, scan, [s], valid, fuel - 1);
    assert [s][1..] == [];
    assert Succs(g, inp, scan, [s], valid, fuel - 1) == Succs(g, inp, scan, [], v, fuel - 1);
  }

  /** A walk from the entry `0` through `1` to the branch `2` with
      successors `[1, 3]`, none of them a definition or a decided branch,
      reaches the branch's loop with `1` and `2` marked. */
  lemma {:induction false} WalkToBranch(g: Cfg, inp: Inputs, scan: Scan)
    requires SuccsOf(g, 0) == [1] && SuccsOf(g, 1) == [2]
    requires !NoInEdge(g, 1) && !IsDefinition(StmtAt(g, 1)) && !Decided(g, inp, 1)
    requires !NoInEdge(g, 2) && !IsDefinition(StmtAt(g, 2)) && !Decided(g, inp, 2)
    ensures Dfs(g, inp, scan, 0, {}, 3) == Succs(g, inp, scan, SuccsOf(g, 2), {1, 2}, 0)
  {
    DfsSingle(g, inp, scan, 0, 1, {}, 3);
    VisitPlain(g, inp, scan, 1, {}, 2);
    DfsSingle(g, inp, scan, 1, 2, {} + {1}, 2);
    VisitPlain(g, inp, scan, 2, {} + {1}, 1);
    assert {} + {1} + {2} == {1, 2};
  }

  /** On `DoWhile`, the walk from the entry reaches the `if` with the body
      and the `if` marked, under either reading of the loop. */
  lemma DoWhileWalk(x: Var, scan: Scan)
    ensures Dfs(DoWhile(x), Inputs(map[], map[]), scan, 0, {}, 3)
            == Succs(DoWhile(x), Inputs(map[], map[]), scan, [1, 3], {1, 2}, 0)
  {
    DoWhileSuccsOf(x, 0, [1]);
    DoWhileSuccsOf(x, 1, [2]);
    DoWhileSuccsOf(x, 2, [1, 3]);
    DoWhileStmts(x, 1);
    DoWhileStmts(x, 2);
    WalkToBranch(DoWhile(x), Inputs(map[], map[]), scan);
  }

  /** As written, the walk on `DoWhile` reaches the `if` with the body
      already marked, returns, and reports the statement after the loop
      dead; skipping the marked body instead keeps it. */
  lemma LoopExitReportedDead(x: Var)
    ensures 3 in AnalyzeAsWritten(DoWhile(x), Inputs(map[], map[]), [1, 2, 3], 3)
    ensures 3 !in Analyze(DoWhile(x), Inputs(map[], map[]), [1, 2, 3], 3)
  {
    var g, inp := DoWhile(x), Inputs(map[], map[]);
    DoWhileWalk(x, StopAtMarked);
    DoWhileWalk(x, SkipMarked);
    DoWhileStmts(x, 3);
    assert Succs(g, inp, SkipMarked, [1, 3], {1, 2}, 0) == Visit(g, inp, SkipMarked, 3, {1, 2}, 0);
  }
}
