/** The context-sensitive points-to solver. Variables, objects, methods and
    call sites carry a context chosen by a context selector; otherwise the
    algorithm is the worklist solver over the pointer-flow graph.

    Three traits of this solver are modelled as they stand:
    - `addReachable` only re-adds a method that the call graph already
      holds, so the reachable set never grows, and every new call edge
      rescans its callee's statements;
    - a copy and a static field access insert their flow edge with the raw
      `addEdge`, which does not enqueue the source's objects;
    - `processCall` gives up on the remaining calls of a receiver variable at
      the first call whose receiver object does not dispatch.

    The scan recursion (a static call scans its callee, which may hold more
    static calls) is bounded by `fuel`: a scan the bound cuts is recorded in
    the state's `skipped` set. */
module PtaCs {
  import opened Wrappers
  import opened Ir
  import opened PointerFlow

  /** One element of a context: a call site, an object, or a type. */
  datatype ContextElem = SiteElem(site: Stmt) | ObjElem(obj: Obj) | TypeElem(ty: Type)

  /** A context: a sequence of elements; the empty context is `[]`. */
  type Context = seq<ContextElem>

  datatype CSVar = CSVar(ctx: Context, v: Var)
  datatype CSObj = CSObj(heapCtx: Context, obj: Obj)
  datatype CSMethod = CSMethod(ctx: Context, m: MethodId)
  datatype CSCallSite = CSCallSite(ctx: Context, site: Stmt)

  /** Static fields are not qualified by a context; instance fields and
      array elements are qualified by the context of their object. */
  datatype Pointer = VarPtr(csVar: CSVar) | StaticField(field: FieldRef) | InstanceField(base: CSObj, field: FieldRef) | ArrayIndex(array: CSObj)

  datatype CSEdge = CSEdge(kind: CallKind, site: CSCallSite, callee: CSMethod)

  /** The collaborators: the heap model, the callee of a static call, the
      method a call dispatches to for a receiver type (None for null), and
      the context selector's three choices. */
  datatype Oracles = Oracles(
    heap: Stmt -> Obj,
    staticCallee: Stmt -> MethodId,
    dispatch: (Type, Stmt) -> Option<MethodId>,
    staticContext: (CSCallSite, MethodId) -> Context,
    instanceContext: (CSCallSite, CSObj, MethodId) -> Context,
    heapContext: (CSMethod, Obj) -> Context)

  /** The solver state: the flow graph and the context-sensitive call graph
      (entry methods, reachable methods, edges), plus the methods whose scan
      the fuel bound cut. */
  datatype State = State(graph: Graph<Pointer, CSObj>, entries: set<CSMethod>, reachable: set<CSMethod>, edges: set<CSEdge>, skipped: set<CSMethod>)

  function Local(ctx: Context, v: Var): Pointer {
    VarPtr(CSVar(ctx, v))
  }

  predicate Flows(s: State, a: Pointer, b: Pointer) {
    b in SuccsOf(s.graph, a)
  }

  predicate AllFlow(s: State, es: seq<(Pointer, Pointer)>) {
    forall k :: 0 <= k < |es| ==> Flows(s, es[k].0, es[k].1)
  }

  ghost predicate Reaches(s: State, p: Pointer, o: CSObj) {
    o in Pt(s.graph, p) || PendingAt(s.graph, p, o)
  }

  /** `s'` follows `s` without propagation: flow edges, worklist entries,
      call edges and skipped scans are only added; entries and reachable
      methods stay as they are. */
  ghost predicate Extends(s: State, s': State) {
    && Grows(s.graph, s'.graph)
    && s'.entries == s.entries && s'.reachable == s.reachable
    && s.edges <= s'.edges && s.skipped <= s'.skipped
  }

  lemma ExtendsTrans(s1: State, s2: State, s3: State)
    requires Extends(s1, s2) && Extends(s2, s3)
    ensures Extends(s1, s3)
  {
    GrowsTrans(s1.graph, s2.graph, s3.graph);
  }

  lemma ReachesStable(s: State, s': State, p: Pointer, o: CSObj)
    requires Extends(s, s') && Reaches(s, p, o)
    ensures Reaches(s', p, o)
  {
    if o !in Pt(s.graph, p) {
      PendingGrows(s.graph, s'.graph, p, o);
    }
  }

  /** The object `x = new T` allocates when scanned in `csm`: the heap
      model's object under the heap context chosen for `csm`. */
  function NewObj(or: Oracles, csm: CSMethod, st: Stmt): CSObj {
    var o := or.heap(st);
    CSObj(or.heapContext(csm, o), o)
  }

  /** The callee of a static call at `st` in context `ctx`, under the
      context chosen for it. */
  function StaticCallee(or: Oracles, ctx: Context, st: Stmt): CSMethod {
    var callee := or.staticCallee(st);
    CSMethod(or.staticContext(CSCallSite(ctx, st), callee), callee)
  }

  /** The callee of an instance call at `inv` in context `ctx` for the
      receiver object `recv`, when the receiver dispatches. */
  function InstanceCallee(or: Oracles, ctx: Context, inv: Stmt, recv: CSObj): Option<CSMethod> {
    match or.dispatch(recv.obj.ty, inv)
    case None => None
    case Some(callee) => Some(CSMethod(or.instanceContext(CSCallSite(ctx, inv), recv, callee), callee))
  }

  /** Arguments in the caller's context to parameters in the callee's. */
  function ArgEdges(prog: Program, call: InvokeExp, ctx: Context, callee: CSMethod): (r: seq<(Pointer, Pointer)>)
    ensures |r| <= |call.args|
  {
    var ps := IrOf(prog, callee.m).params;
    var n := if |call.args| < |ps| then |call.args| else |ps|;
    seq(n, i requires 0 <= i < n => (Local(ctx, call.args[i]), Local(callee.ctx, ps[i])))
  }

  /** Return variables in the callee's context to the call's result
      variable in the caller's; nothing for a call without a result. */
  function ResultEdges(prog: Program, st: Stmt, ctx: Context, callee: CSMethod): (r: seq<(Pointer, Pointer)>)
    ensures st.kind.Invoke? && st.kind.result.None? ==> r == []
  {
    if st.kind.Invoke? && st.kind.result.Some? then
      var rs := IrOf(prog, callee.m).returnVars;
      seq(|rs|, i requires 0 <= i < |rs| => (Local(callee.ctx, rs[i]), Local(ctx, st.kind.result.value)))
    else []
  }

  /** The edge a copy or a static field access inserts raw, in context `ctx`. */
  function RawEdge(ctx: Context, st: Stmt): Option<(Pointer, Pointer)> {
    if IsCopy(st) then Some((Local(ctx, st.kind.rvalue.v), Local(ctx, st.kind.lvalue.v)))
    else if IsStaticLoad(st) && st.kind.rvalue.access.field.isStatic then
      Some((StaticField(st.kind.rvalue.access.field), Local(ctx, st.kind.lvalue.v)))
    else if IsStaticStore(st) && st.kind.lvalue.access.field.isStatic then
      Some((Local(ctx, st.kind.rvalue.v), StaticField(st.kind.lvalue.access.field)))
    else None
  }

  /** The visits that touch only the flow graph: `x = new T` enqueues
      `(x, {o})` for the context-qualified object, and a copy or static
      field access inserts its raw edge, enqueueing nothing whatever its
      source already points to. */
  function VisitLocal(or: Oracles, csm: CSMethod, st: Stmt, g: Graph<Pointer, CSObj>): (r: Graph<Pointer, CSObj>)
    ensures Grows(g, r)
    ensures IsNew(st) ==> r.worklist == g.worklist + [Entry(Local(csm.ctx, st.kind.lvalue.v), Fresh({NewObj(or, csm, st)}))]
    ensures !IsNew(st) ==> r.worklist == g.worklist
    ensures forall p, q :: q in SuccsOf(r, p) <==> q in SuccsOf(g, p) || RawEdge(csm.ctx, st) == Some((p, q))
  {
    if IsNew(st) then Enqueue(g, Local(csm.ctx, st.kind.lvalue.v), Fresh({NewObj(or, csm, st)}))
    else match RawEdge(csm.ctx, st)
      case None => g
      case Some(e) => AddEdge(g, e.0, e.1)
  }

  /** A raw edge whose source already points somewhere, added when no entry
      is pending, leaves the target short of the source's objects, and the
      solver has nothing left that would carry them over: the graph is no
      longer closed. */
  lemma RawEdgeLosesObjects(or: Oracles, csm: CSMethod, st: Stmt, g: Graph<Pointer, CSObj>)
    requires RawEdge(csm.ctx, st).Some? && g.worklist == []
    requires var e := RawEdge(csm.ctx, st).value; Pt(g, e.0) != {} && Pt(g, e.1) == {}
    ensures var e := RawEdge(csm.ctx, st).value; var r := VisitLocal(or, csm, st, g);
            && e.1 in SuccsOf(r, e.0) && r.worklist == [] && !(Pt(r, e.0) <= Pt(r, e.1))
    ensures !Closed(VisitLocal(or, csm, st, g))
  {
    var e := RawEdge(csm.ctx, st).value;
    var r := VisitLocal(or, csm, st, g);
    var o :| o in Pt(g, e.0);
    assert e.1 in SuccsOf(r, e.0) && o in Pt(r, e.0);
    assert !PendingAt(r, e.1, o);
  }

  /** The same edge inserted with `addPFGEdge` keeps a closed graph closed. */
  lemma PfgEdgeKeepsObjects(or: Oracles, csm: CSMethod, st: Stmt, g: Graph<Pointer, CSObj>)
    requires RawEdge(csm.ctx, st).Some? && Closed(g)
    ensures var e := RawEdge(csm.ctx, st).value; Closed(AddPfgEdge(g, e.0, e.1))
  {
    var e := RawEdge(csm.ctx, st).value;
    ClosedAddPfgEdge(g, e.0, e.1);
  }

  /** `addPFGEdge` as this solver writes it: a flag records whether the
      scan of the source's successors meets the target, and only when it
      does not is the edge inserted and, for a source that points
      somewhere, the target enqueued with the source's live set. The result
      is the graph `AddPfgEdge` describes. */
  method AddPfgEdgeByScan(g: Graph<Pointer, CSObj>, source: Pointer, target: Pointer) returns (r: Graph<Pointer, CSObj>)
    ensures r == AddPfgEdge(g, source, target)
  {
    var found := false;
    var rest := SuccsOf(g, source);
    while rest != {}
      invariant rest <= SuccsOf(g, source)
      invariant found <==> target in SuccsOf(g, source) - rest
      decreases rest
    {
      var succ :| succ in rest;
      if succ == target {
        found := true;
      }
      rest := rest - {succ};
    }
    if found {
      r := g;
    } else {
      r := AddEdge(g, source, target);
      if Pt(g, source) != {} {
        r := Enqueue(r, target, Live(source));
      }
    }
  }

  /** A static call at `st` in `ctx` has its STATIC edge and its result edges. */
  predicate StaticCallHandled(prog: Program, or: Oracles, ctx: Context, st: Stmt, s: State) {
    var callee := StaticCallee(or, ctx, st);
    CSEdge(Static, CSCallSite(ctx, st), callee) in s.edges && AllFlow(s, ResultEdges(prog, st, ctx, callee))
  }

  /** The effect of scanning statement `st` of `csm`. */
  ghost predicate Scanned(prog: Program, or: Oracles, csm: CSMethod, st: Stmt, s: State) {
    && (IsNew(st) ==> Reaches(s, Local(csm.ctx, st.kind.lvalue.v), NewObj(or, csm, st)))
    && (RawEdge(csm.ctx, st).Some? ==> Flows(s, RawEdge(csm.ctx, st).value.0, RawEdge(csm.ctx, st).value.1))
    && (IsStaticInvoke(st) && st.kind.invokeExp.methodRef.isStatic ==> StaticCallHandled(prog, or, csm.ctx, st, s))
  }

  /** Every statement of `csm` has been scanned, or its scan was cut. */
  ghost predicate Visited(prog: Program, or: Oracles, csm: CSMethod, s: State) {
    csm in s.skipped || forall st :: st in StmtsOf(prog, csm.m) ==> Scanned(prog, or, csm, st, s)
  }

  /** A call edge is wired: arguments flow to parameters and return
      variables to the result variable. */
  predicate Wired(prog: Program, e: CSEdge, s: State) {
    && e.site.site.kind.Invoke?
    && AllFlow(s, ArgEdges(prog, e.site.site.kind.invokeExp, e.site.ctx, e.callee))
    && AllFlow(s, ResultEdges(prog, e.site.site, e.site.ctx, e.callee))
  }

  lemma ScannedStable(prog: Program, or: Oracles, csm: CSMethod, st: Stmt, s: State, s': State)
    requires Extends(s, s') && Scanned(prog, or, csm, st, s)
    ensures Scanned(prog, or, csm, st, s')
  {
    if IsNew(st) {
      ReachesStable(s, s', Local(csm.ctx, st.kind.lvalue.v), NewObj(or, csm, st));
    }
  }

  lemma VisitedStable(prog: Program, or: Oracles, csm: CSMethod, s: State, s': State)
    requires Extends(s, s') && Visited(prog, or, csm, s)
    ensures Visited(prog, or, csm, s')
  {
    if csm !in s.skipped {
      forall st | st in StmtsOf(prog, csm.m) ensures Scanned(prog, or, csm, st, s') {
        ScannedStable(prog, or, csm, st, s, s');
      }
    }
  }

  /** Every call edge added between `s` and `s'` is wired and its callee
      visited. */
  ghost predicate NewWorkDone(prog: Program, or: Oracles, s: State, s': State) {
    forall e :: e in s'.edges && e !in s.edges ==> Wired(prog, e, s') && Visited(prog, or, e.callee, s')
  }

  lemma NewWorkDoneTrans(prog: Program, or: Oracles, s1: State, s2: State, s3: State)
    requires Extends(s1, s2) && Extends(s2, s3)
    requires NewWorkDone(prog, or, s1, s2) && NewWorkDone(prog, or, s2, s3)
    ensures NewWorkDone(prog, or, s1, s3)
  {
    forall e | e in s3.edges && e !in s1.edges ensures Wired(prog, e, s3) && Visited(prog, or, e.callee, s3) {
      if e in s2.edges {
        VisitedStable(prog, or, e.callee, s2, s3);
      }
    }
  }

  /** `addReachable(csm)`: the guard re-adds `csm` only when the call graph
      already holds it, so the reachable set is left as it is; the
      statements are scanned either way. */
  method AddReachable(prog: Program, or: Oracles, s: State, csm: CSMethod, fuel: nat) returns (s': State)
    ensures Extends(s, s') && NewWorkDone(prog, or, s, s')
    ensures s'.reachable == s.reachable
    ensures Visited(prog, or, csm, s')
    ensures fuel == 0 ==> s' == s.(skipped := s.skipped + {csm})
    ensures fuel > 0 ==> forall st :: st in StmtsOf(prog, csm.m) ==> Scanned(prog, or, csm, st, s')
    decreases fuel, 0
  {
    var s0 := if csm in s.reachable then s.(reachable := s.reachable + {csm}) else s;
    assert s0 == s;
    if fuel == 0 {
      return s0.(skipped := s0.skipped + {csm});
    }
    s' := s0;
    var stmts := StmtsOf(prog, csm.m);
    var i := 0;
    while i < |stmts|
      invariant 0 <= i <= |stmts|
      invariant Extends(s, s') && NewWorkDone(prog, or, s, s')
      invariant forall j :: 0 <= j < i ==> Scanned(prog, or, csm, stmts[j], s')
    {
      var s2 := VisitStmt(prog, or, s', csm, stmts[i], fuel - 1);
      forall j | 0 <= j < i ensures Scanned(prog, or, csm, stmts[j], s2) {
        ScannedStable(prog, or, csm, stmts[j], s', s2);
      }
      NewWorkDoneTrans(prog, or, s, s', s2);
      ExtendsTrans(s, s', s2);
      s' := s2;
      i := i + 1;
    }
    forall st | st in StmtsOf(prog, csm.m) ensures Scanned(prog, or, csm, st, s') {
      var j :| 0 <= j < |stmts| && stmts[j] == st;
    }
  }

  /** One statement of a method being scanned: a static call goes to
      `VisitStaticInvoke`, the rest to `VisitLocal`. */
  method VisitStmt(prog: Program, or: Oracles, s: State, csm: CSMethod, st: Stmt, fuel: nat) returns (s': State)
    ensures Extends(s, s') && NewWorkDone(prog, or, s, s')
    ensures Scanned(prog, or, csm, st, s')
    ensures !IsStaticInvoke(st) ==> s' == s.(graph := VisitLocal(or, csm, st, s.graph))
    decreases fuel, 2
  {
    if IsStaticInvoke(st) {
      s' := VisitStaticInvoke(prog, or, s, csm, st, fuel);
    } else {
      s' := s.(graph := VisitLocal(or, csm, st, s.graph));
      if IsNew(st) {
        EntryPending(s'.graph, Local(csm.ctx, st.kind.lvalue.v), {NewObj(or, csm, st)}, NewObj(or, csm, st));
      }
    }
  }

  /** A static call in `csm`: the callee gets the context the selector
      chooses for the call site; when the STATIC edge is new the callee is
      scanned and arguments are wired to parameters; the return variables
      are wired to the result variable whether the edge was new or not. A
      call whose method reference is not static is skipped. */
  method VisitStaticInvoke(prog: Program, or: Oracles, s: State, csm: CSMethod, st: Stmt, fuel: nat) returns (s': State)
    requires IsStaticInvoke(st)
    ensures Extends(s, s') && NewWorkDone(prog, or, s, s')
    ensures !st.kind.invokeExp.methodRef.isStatic ==> s' == s
    ensures st.kind.invokeExp.methodRef.isStatic ==>
              var callee := StaticCallee(or, csm.ctx, st);
              var e := CSEdge(Static, CSCallSite(csm.ctx, st), callee);
              && StaticCallHandled(prog, or, csm.ctx, st, s')
              && (e !in s.edges ==> AllFlow(s', ArgEdges(prog, st.kind.invokeExp, csm.ctx, callee)) && Visited(prog, or, callee, s'))
              && (e in s.edges ==>
                    && s'.edges == s.edges && s'.skipped == s.skipped
                    && forall p, q :: q in SuccsOf(s'.graph, p) <==> q in SuccsOf(s.graph, p) || (p, q) in ResultEdges(prog, st, csm.ctx, callee))
    decreases fuel, 1
  {
    var inv := st.kind.invokeExp;
    if !inv.methodRef.isStatic {
      return s;
    }
    var ctx := csm.ctx;
    var callee := StaticCallee(or, ctx, st);
    var e := CSEdge(Static, CSCallSite(ctx, st), callee);
    var s1 := s;
    if e !in s.edges {
      var s0 := s.(edges := s.edges + {e});
      var s2 := AddReachable(prog, or, s0, callee, fuel);
      var g3 := AddPfgEdges(s2.graph, ArgEdges(prog, inv, ctx, callee));
      s1 := s2.(graph := g3);
      ExtendsTrans(s, s0, s2);
      ExtendsTrans(s, s2, s1);
      VisitedStable(prog, or, callee, s2, s1);
      forall e' | e' in s1.edges && e' !in s.edges && e' != e ensures Wired(prog, e', s1) && Visited(prog, or, e'.callee, s1) {
        VisitedStable(prog, or, e'.callee, s2, s1);
      }
    }
    var g := AddPfgEdges(s1.graph, ResultEdges(prog, st, ctx, callee));
    s' := s1.(graph := g);
    ExtendsTrans(s, s1, s');
    forall e' | e' in s'.edges && e' !in s.edges ensures Wired(prog, e', s') && Visited(prog, or, e'.callee, s') {
      VisitedStable(prog, or, e'.callee, s1, s');
    }
    if e !in s.edges {
      VisitedStable(prog, or, callee, s1, s');
    }
  }

  /** `y = x.f` for each load of `v`'s field: the field of `o` flows to `y`,
      both variables in `v`'s context. */
  function LoadFieldEdges(prog: Program, v: CSVar, o: CSObj): seq<(Pointer, Pointer)> {
    var ls := LoadFieldsOf(prog, v.v);
    seq(|ls|, i requires 0 <= i < |ls| =>
      assert ls[i] in ls; (InstanceField(o, ls[i].kind.rvalue.access.field), Local(v.ctx, ls[i].kind.lvalue.v)))
  }

  /** `x.f = y`: `y` flows to the field of `o`. */
  function StoreFieldEdges(prog: Program, v: CSVar, o: CSObj): seq<(Pointer, Pointer)> {
    var ss := StoreFieldsOf(prog, v.v);
    seq(|ss|, i requires 0 <= i < |ss| =>
      assert ss[i] in ss; (Local(v.ctx, ss[i].kind.rvalue.v), InstanceField(o, ss[i].kind.lvalue.access.field)))
  }

  /** `y = x[i]`: the elements of `o` flow to `y`. */
  function LoadArrayEdges(prog: Program, v: CSVar, o: CSObj): seq<(Pointer, Pointer)> {
    var ls := LoadArraysOf(prog, v.v);
    seq(|ls|, i requires 0 <= i < |ls| => assert ls[i] in ls; (ArrayIndex(o), Local(v.ctx, ls[i].kind.lvalue.v)))
  }

  /** `x[i] = y`: `y` flows to the elements of `o`. */
  function StoreArrayEdges(prog: Program, v: CSVar, o: CSObj): seq<(Pointer, Pointer)> {
    var ss := StoreArraysOf(prog, v.v);
    seq(|ss|, i requires 0 <= i < |ss| => assert ss[i] in ss; (Local(v.ctx, ss[i].kind.rvalue.v), ArrayIndex(o)))
  }

  function ObjEdges(prog: Program, v: CSVar, o: CSObj): seq<(Pointer, Pointer)> {
    LoadFieldEdges(prog, v, o) + StoreFieldEdges(prog, v, o) + LoadArrayEdges(prog, v, o) + StoreArrayEdges(prog, v, o)
  }

  /** The number of calls in `invs` that `processCall` gets through for a
      receiver of type `t`: it stops at the first instance call that does
      not dispatch. */
  function FirstUnresolved(or: Oracles, invs: seq<Stmt>, t: Type): (r: nat)
    ensures r <= |invs|
    ensures forall j :: 0 <= j < r ==> IsStaticInvoke(invs[j]) || or.dispatch(t, invs[j]).Some?
    ensures r < |invs| ==> !IsStaticInvoke(invs[r]) && or.dispatch(t, invs[r]).None?
  {
    if invs == [] then 0
    else if !IsStaticInvoke(invs[0]) && or.dispatch(t, invs[0]).None? then 0
    else 1 + FirstUnresolved(or, invs[1..], t)
  }

  /** The instance call `inv` of `v` on receiver object `o` has reached
      its callee: the callee's `this`, in the callee's context, gets `o`,
      and the call edge of the call's own kind is present. */
  ghost predicate CallHandled(prog: Program, or: Oracles, v: CSVar, o: CSObj, inv: Stmt, s: State) {
    match InstanceCallee(or, v.ctx, inv, o)
    case None => true
    case Some(callee) =>
      && inv.kind.Invoke?
      && Reaches(s, Local(callee.ctx, IrOf(prog, callee.m).thisVar), o)
      && CSEdge(inv.kind.invokeExp.kind, CSCallSite(v.ctx, inv), callee) in s.edges
  }

  /** What the solver has done for an object `o` newly in pt(v): the field
      and array edges, and every instance call of `v` up to the first one
      that does not dispatch. */
  ghost predicate ObjHandled(prog: Program, or: Oracles, v: CSVar, o: CSObj, s: State) {
    var invs := InvokesOf(prog, v.v);
    && AllFlow(s, ObjEdges(prog, v, o))
    && forall j :: 0 <= j < FirstUnresolved(or, invs, o.obj.ty) && !IsStaticInvoke(invs[j]) ==> CallHandled(prog, or, v, o, invs[j], s)
  }

  lemma ObjHandledStable(prog: Program, or: Oracles, v: CSVar, o: CSObj, s: State, s': State)
    requires Extends(s, s') && ObjHandled(prog, or, v, o, s)
    ensures ObjHandled(prog, or, v, o, s')
  {
    var invs := InvokesOf(prog, v.v);
    forall j | 0 <= j < FirstUnresolved(or, invs, o.obj.ty) && !IsStaticInvoke(invs[j]) ensures CallHandled(prog, or, v, o, invs[j], s') {
      assert CallHandled(prog, or, v, o, invs[j], s);
      var callee := InstanceCallee(or, v.ctx, invs[j], o).value;
      ReachesStable(s, s', Local(callee.ctx, IrOf(prog, callee.m).thisVar), o);
    }
  }

  /** `processCall(v, o)`: for each instance call of `v` in order, the
      callee's `this` gets `(this, {o})` enqueued and the call edge is added,
      the callee scanned and the call wired when the edge is new; the first
      call whose receiver does not dispatch ends the whole loop. `processed`
      is the position it stopped at. */
  method ProcessCall(prog: Program, or: Oracles, s: State, v: CSVar, o: CSObj, fuel: nat) returns (s': State, processed: nat)
    ensures Extends(s, s') && NewWorkDone(prog, or, s, s')
    ensures processed == FirstUnresolved(or, InvokesOf(prog, v.v), o.obj.ty)
    ensures forall j :: 0 <= j < processed && !IsStaticInvoke(InvokesOf(prog, v.v)[j]) ==>
              var inv := InvokesOf(prog, v.v)[j];
              var callee := InstanceCallee(or, v.ctx, inv, o).value;
              && Entry(Local(callee.ctx, IrOf(prog, callee.m).thisVar), Fresh({o})) in s'.graph.worklist[|s.graph.worklist|..]
              && inv.kind.Invoke? && CSEdge(inv.kind.invokeExp.kind, CSCallSite(v.ctx, inv), callee) in s'.edges
  {
    var invs := InvokesOf(prog, v.v);
    s' := s;
    var i := 0;
    while i < |invs|
      invariant 0 <= i <= |invs|
      invariant i <= FirstUnresolved(or, invs, o.obj.ty)
      invariant Extends(s, s') && NewWorkDone(prog, or, s, s')
      invariant forall j :: 0 <= j < i && !IsStaticInvoke(invs[j]) ==>
                  var callee := InstanceCallee(or, v.ctx, invs[j], o).value;
                  && Entry(Local(callee.ctx, IrOf(prog, callee.m).thisVar), Fresh({o})) in s'.graph.worklist[|s.graph.worklist|..]
                  && invs[j].kind.Invoke? && CSEdge(invs[j].kind.invokeExp.kind, CSCallSite(v.ctx, invs[j]), callee) in s'.edges
    {
      FirstUnresolvedStep(or, invs, o.obj.ty, i);
      var inv := invs[i];
      assert inv in invs;
      if !IsStaticInvoke(inv) {
        var r := InstanceCallee(or, v.ctx, inv, o);
        if r.None? {
          return s', i;
        }
        var callee := r.value;
        var thisPtr := Local(callee.ctx, IrOf(prog, callee.m).thisVar);
        var s1 := s'.(graph := Enqueue(s'.graph, thisPtr, Fresh({o})));
        var s2 := AddCallEdge(prog, or, s1, v.ctx, inv, callee, fuel);
        NewWorkDoneTrans(prog, or, s, s', s1);
        NewWorkDoneTrans(prog, or, s, s1, s2);
        ExtendsTrans(s, s', s1);
        ExtendsTrans(s, s1, s2);
        SuffixGrows(s.graph.worklist, s'.graph.worklist, s2.graph.worklist);
        assert s2.graph.worklist[|s'.graph.worklist|] == Entry(thisPtr, Fresh({o}));
        s' := s2;
      }
      i := i + 1;
    }
    processed := i;
  }

  /** Position `i` is before the stop point, so either the loop stops here
      or it goes on past it. */
  lemma {:induction false} FirstUnresolvedStep(or: Oracles, invs: seq<Stmt>, t: Type, i: nat)
    requires i < |invs| && i <= FirstUnresolved(or, invs, t)
    ensures i == FirstUnresolved(or, invs, t) <==> !IsStaticInvoke(invs[i]) && or.dispatch(t, invs[i]).None?
  {
    if i > 0 {
      FirstUnresolvedStep(or, invs[1..], t, i - 1);
      assert invs[1..][i - 1] == invs[i];
    }
  }

  /** `callGraph.addEdge` for an instance call and, when the edge is new,
      the callee's scan and the wiring of arguments and result. */
  method AddCallEdge(prog: Program, or: Oracles, s: State, ctx: Context, inv: Stmt, callee: CSMethod, fuel: nat) returns (s': State)
    requires inv.kind.Invoke?
    ensures Extends(s, s') && NewWorkDone(prog, or, s, s')
    ensures CSEdge(inv.kind.invokeExp.kind, CSCallSite(ctx, inv), callee) in s'.edges
    ensures CSEdge(inv.kind.invokeExp.kind, CSCallSite(ctx, inv), callee) in s.edges ==> s' == s
  {
    var e := CSEdge(inv.kind.invokeExp.kind, CSCallSite(ctx, inv), callee);
    if e in s.edges {
      return s;
    }
    var s0 := s.(edges := s.edges + {e});
    var s2 := AddReachable(prog, or, s0, callee, fuel);
    var g3 := AddPfgEdges(s2.graph, ArgEdges(prog, inv.kind.invokeExp, ctx, callee));
    var s3 := s2.(graph := g3);
    var g4 := AddPfgEdges(s3.graph, ResultEdges(prog, inv, ctx, callee));
    s' := s3.(graph := g4);
    ExtendsTrans(s, s0, s2);
    ExtendsTrans(s, s2, s3);
    ExtendsTrans(s, s3, s');
    ExtendsTrans(s2, s3, s');
    forall e' | e' in s'.edges && e' !in s.edges ensures Wired(prog, e', s') && Visited(prog, or, e'.callee, s') {
      VisitedStable(prog, or, e'.callee, s2, s');
    }
  }

  /** What was appended after `a` is still there after more appends. */
  lemma SuffixGrows<T>(a: seq<T>, b: seq<T>, c: seq<T>)
    requires a <= b <= c
    ensures forall x :: x in b[|a|..] ==> x in c[|a|..]
  {
    forall x | x in b[|a|..] ensures x in c[|a|..] {
      var i :| |a| <= i < |b| && b[i] == x;
      assert c[i] == x;
    }
  }

  /** The body of the loop over the delta for one object `o` of `v`. */
  method ProcessObj(prog: Program, or: Oracles, s: State, v: CSVar, o: CSObj, fuel: nat) returns (s': State)
    ensures Extends(s, s') && NewWorkDone(prog, or, s, s')
    ensures ObjHandled(prog, or, v, o, s')
  {
    var g1 := AddPfgEdges(s.graph, ObjEdges(prog, v, o));
    var s1 := s.(graph := g1);
    var processed;
    s', processed := ProcessCall(prog, or, s1, v, o, fuel);
    ExtendsTrans(s, s1, s');
    NewWorkDoneTrans(prog, or, s, s1, s');
    var invs := InvokesOf(prog, v.v);
    forall j | 0 <= j < FirstUnresolved(or, invs, o.obj.ty) && !IsStaticInvoke(invs[j]) ensures CallHandled(prog, or, v, o, invs[j], s') {
      var callee := InstanceCallee(or, v.ctx, invs[j], o).value;
      var thisPtr := Local(callee.ctx, IrOf(prog, callee.m).thisVar);
      assert Entry(thisPtr, Fresh({o})) in s'.graph.worklist;
      EntryPending(s'.graph, thisPtr, {o}, o);
      assert invs[j] in invs;
    }
  }

  /** The solver invariant: every entry method and every call edge's callee
      is visited, every call edge is wired, and every object a variable
      points to has been handled. It says nothing about the flow along
      raw edges, which the solver does not maintain. */
  ghost predicate Inv(prog: Program, or: Oracles, s: State) {
    && (forall m :: m in s.entries ==> Visited(prog, or, m, s))
    && (forall e :: e in s.edges ==> Wired(prog, e, s) && Visited(prog, or, e.callee, s))
    && (forall v, o :: o in Pt(s.graph, VarPtr(v)) ==> ObjHandled(prog, or, v, o, s))
  }

  ghost predicate Polled(s: State, s2: State, delta: set<CSObj>) {
    && s.graph.worklist != []
    && s2 == s.(graph := s2.graph)
    && var e := s.graph.worklist[0];
       Propagated(s.graph.(worklist := s.graph.worklist[1..]), e.pointer, Contents(s.graph, e.pts), s2.graph, delta)
  }

  lemma ReachesPolled(s: State, s2: State, delta: set<CSObj>, p: Pointer, o: CSObj)
    requires Polled(s, s2, delta) && Reaches(s, p, o)
    ensures Reaches(s2, p, o)
  {
    ReachesAfterPropagate(s.graph, s2.graph, delta, p, o);
  }

  lemma VisitedPolled(prog: Program, or: Oracles, csm: CSMethod, s: State, s2: State, delta: set<CSObj>)
    requires Polled(s, s2, delta) && Visited(prog, or, csm, s)
    ensures Visited(prog, or, csm, s2)
  {
    if csm !in s.skipped {
      forall st | st in StmtsOf(prog, csm.m) ensures Scanned(prog, or, csm, st, s2) {
        assert Scanned(prog, or, csm, st, s);
        if IsNew(st) {
          ReachesPolled(s, s2, delta, Local(csm.ctx, st.kind.lvalue.v), NewObj(or, csm, st));
        }
      }
    }
  }

  lemma ObjHandledPolled(prog: Program, or: Oracles, v: CSVar, o: CSObj, s: State, s2: State, delta: set<CSObj>)
    requires Polled(s, s2, delta) && ObjHandled(prog, or, v, o, s)
    ensures ObjHandled(prog, or, v, o, s2)
  {
    var invs := InvokesOf(prog, v.v);
    forall j | 0 <= j < FirstUnresolved(or, invs, o.obj.ty) && !IsStaticInvoke(invs[j]) ensures CallHandled(prog, or, v, o, invs[j], s2) {
      assert CallHandled(prog, or, v, o, invs[j], s);
      var callee := InstanceCallee(or, v.ctx, invs[j], o).value;
      ReachesPolled(s, s2, delta, Local(callee.ctx, IrOf(prog, callee.m).thisVar), o);
    }
  }

  /** The invariant, except that the objects `rest` of `v` are still to be
      handled. */
  ghost predicate InvExcept(prog: Program, or: Oracles, s: State, v: CSVar, rest: set<CSObj>) {
    && (forall m :: m in s.entries ==> Visited(prog, or, m, s))
    && (forall e :: e in s.edges ==> Wired(prog, e, s) && Visited(prog, or, e.callee, s))
    && (forall v', o :: o in Pt(s.graph, VarPtr(v')) && !(v' == v && o in rest) ==> ObjHandled(prog, or, v', o, s))
  }

  /** After polling, the invariant holds except for the delta's objects of
      the polled variable. */
  lemma InvPolled(prog: Program, or: Oracles, s: State, s2: State, delta: set<CSObj>)
    requires Inv(prog, or, s) && Polled(s, s2, delta)
    ensures s.graph.worklist[0].pointer.VarPtr? ==> InvExcept(prog, or, s2, s.graph.worklist[0].pointer.csVar, delta)
    ensures !s.graph.worklist[0].pointer.VarPtr? || delta == {} ==> Inv(prog, or, s2)
  {
    forall m | m in s2.entries ensures Visited(prog, or, m, s2) {
      VisitedPolled(prog, or, m, s, s2, delta);
    }
    forall e | e in s2.edges ensures Wired(prog, e, s2) && Visited(prog, or, e.callee, s2) {
      VisitedPolled(prog, or, e.callee, s, s2, delta);
    }
    forall v, o | o in Pt(s2.graph, VarPtr(v)) && !(VarPtr(v) == s.graph.worklist[0].pointer && o in delta)
      ensures ObjHandled(prog, or, v, o, s2)
    {
      ObjHandledPolled(prog, or, v, o, s, s2, delta);
    }
  }

  /** Handle one object of the delta still to be handled. */
  method HandleOne(prog: Program, or: Oracles, s: State, v: CSVar, rest: set<CSObj>, o: CSObj, fuel: nat) returns (s': State)
    requires InvExcept(prog, or, s, v, rest) && o in rest
    ensures InvExcept(prog, or, s', v, rest - {o}) && Extends(s, s')
  {
    s' := ProcessObj(prog, or, s, v, o, fuel);
    forall m | m in s'.entries ensures Visited(prog, or, m, s') {
      VisitedStable(prog, or, m, s, s');
    }
    forall e' | e' in s'.edges ensures Wired(prog, e', s') && Visited(prog, or, e'.callee, s') {
      if e' in s.edges {
        VisitedStable(prog, or, e'.callee, s, s');
      }
    }
    forall v', o' | o' in Pt(s'.graph, VarPtr(v')) && !(v' == v && o' in rest - {o}) ensures ObjHandled(prog, or, v', o', s') {
      if !(v' == v && o' == o) {
        ObjHandledStable(prog, or, v', o', s, s');
      }
    }
  }

  /** One iteration of `analyze`: poll the head entry, propagate it, and
      for a context-sensitive variable that gained objects handle each new
      object. */
  method Step(prog: Program, or: Oracles, s: State, fuel: nat) returns (s': State)
    requires Inv(prog, or, s) && s.graph.worklist != []
    ensures Inv(prog, or, s')
    ensures forall p :: Pt(s.graph, p) <= Pt(s'.graph, p)
    ensures Contents(s.graph, s.graph.worklist[0].pts) <= Pt(s'.graph, s.graph.worklist[0].pointer)
    ensures s'.entries == s.entries && s'.reachable == s.reachable && s.edges <= s'.edges
  {
    var e := s.graph.worklist[0];
    var g2, delta := Propagate(s.graph.(worklist := s.graph.worklist[1..]), e.pointer, Contents(s.graph, e.pts));
    var s2 := s.(graph := g2);
    InvPolled(prog, or, s, s2, delta);
    forall p ensures Pt(s.graph, p) <= Pt(s2.graph, p) {
      assert Pt(s.graph, p) == Pt(s.graph.(worklist := s.graph.worklist[1..]), p);
    }
    s' := s2;
    if e.pointer.VarPtr? && delta != {} {
      var v := e.pointer.csVar;
      var rest := delta;
      while rest != {}
        invariant rest <= delta
        invariant Extends(s2, s') && InvExcept(prog, or, s', v, rest)
        decreases rest
      {
        var o :| o in rest;
        var s3 := HandleOne(prog, or, s', v, rest, o, fuel);
        ExtendsTrans(s2, s', s3);
        s' := s3;
        rest := rest - {o};
      }
    }
  }

  /** `analyze`: run steps until the worklist is empty, for at most `fuel`
      steps; `fuel` also bounds each step's scan recursion. */
  method Analyze(prog: Program, or: Oracles, s: State, fuel: nat) returns (s': State, done: bool)
    requires Inv(prog, or, s)
    ensures Inv(prog, or, s')
    ensures forall p :: Pt(s.graph, p) <= Pt(s'.graph, p)
    ensures s'.entries == s.entries && s'.reachable == s.reachable && s.edges <= s'.edges
    ensures done <==> s'.graph.worklist == []
  {
    s' := s;
    var n := 0;
    while s'.graph.worklist != [] && n < fuel
      invariant Inv(prog, or, s')
      invariant forall p :: Pt(s.graph, p) <= Pt(s'.graph, p)
      invariant s'.entries == s.entries && s'.reachable == s.reachable && s.edges <= s'.edges
      decreases fuel - n
    {
      s' := Step(prog, or, s', fuel);
      n := n + 1;
    }
    done := s'.graph.worklist == [];
  }

  /** `solve`: the entry method in the empty context becomes the call
      graph's entry and is scanned, then the worklist is processed. The
      reachable set ends as it starts, empty. */
  method Solve(prog: Program, or: Oracles, main: MethodId, fuel: nat) returns (s: State, done: bool)
    ensures Inv(prog, or, s)
    ensures s.entries == {CSMethod([], main)} && s.reachable == {}
    ensures done <==> s.graph.worklist == []
  {
    var entry := CSMethod([], main);
    var s0 := State(Empty(), {entry}, {}, {}, {});
    var s1 := AddReachable(prog, or, s0, entry, fuel);
    s, done := Analyze(prog, or, s1, fuel);
  }

  /** At an empty worklist: each object allocated in the entry method or in a
      callee, when its scan was not cut short, is in pt of its
      context-qualified variable, every call
      edge is wired with its argument and result edges, and every object a
      variable points to has reached `this` of each callee its calls
      dispatch to before the first call that does not. */
  lemma Fixpoint(prog: Program, or: Oracles, s: State)
    requires Inv(prog, or, s) && s.graph.worklist == []
    ensures forall e, st :: e in s.edges && e.callee !in s.skipped && st in StmtsOf(prog, e.callee.m) && IsNew(st) ==>
              NewObj(or, e.callee, st) in Pt(s.graph, Local(e.callee.ctx, st.kind.lvalue.v))
    ensures forall csm, st :: csm in s.entries && csm !in s.skipped && st in StmtsOf(prog, csm.m) && IsNew(st) ==>
              NewObj(or, csm, st) in Pt(s.graph, Local(csm.ctx, st.kind.lvalue.v))
    ensures forall e :: e in s.edges ==> Wired(prog, e, s)
    ensures forall v, o, j :: (o in Pt(s.graph, VarPtr(v)) && 0 <= j < FirstUnresolved(or, InvokesOf(prog, v.v), o.obj.ty)
              && !IsStaticInvoke(InvokesOf(prog, v.v)[j])) ==>
              var callee := InstanceCallee(or, v.ctx, InvokesOf(prog, v.v)[j], o).value;
              o in Pt(s.graph, Local(callee.ctx, IrOf(prog, callee.m).thisVar))
  {
    forall e, st | e in s.edges && e.callee !in s.skipped && st in StmtsOf(prog, e.callee.m) && IsNew(st)
      ensures NewObj(or, e.callee, st) in Pt(s.graph, Local(e.callee.ctx, st.kind.lvalue.v))
    {
      assert Scanned(prog, or, e.callee, st, s);
      assert !PendingAt(s.graph, Local(e.callee.ctx, st.kind.lvalue.v), NewObj(or, e.callee, st));
    }
    forall csm, st | csm in s.entries && csm !in s.skipped && st in StmtsOf(prog, csm.m) && IsNew(st)
      ensures NewObj(or, csm, st) in Pt(s.graph, Local(csm.ctx, st.kind.lvalue.v))
    {
      assert Scanned(prog, or, csm, st, s);
      assert !PendingAt(s.graph, Local(csm.ctx, st.kind.lvalue.v), NewObj(or, csm, st));
    }
    forall v, o, j | o in Pt(s.graph, VarPtr(v)) && 0 <= j < FirstUnresolved(or, InvokesOf(prog, v.v), o.obj.ty)
      && !IsStaticInvoke(InvokesOf(prog, v.v)[j])
      ensures var callee := InstanceCallee(or, v.ctx, InvokesOf(prog, v.v)[j], o).value;
              o in Pt(s.graph, Local(callee.ctx, IrOf(prog, callee.m).thisVar))
    {
      assert ObjHandled(prog, or, v, o, s);
      assert CallHandled(prog, or, v, o, InvokesOf(prog, v.v)[j], s);
      var callee := InstanceCallee(or, v.ctx, InvokesOf(prog, v.v)[j], o).value;
      assert !PendingAt(s.graph, Local(callee.ctx, IrOf(prog, callee.m).thisVar), o);
    }
  }
}
