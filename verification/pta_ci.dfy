/** The context-insensitive points-to solver: a worklist algorithm over the
    pointer-flow graph that discovers reachable methods and call edges on the
    fly. Static calls are wired when a method is first scanned; instance
    calls when the receiver variable gains an object. */
module PtaCi {
  import opened Wrappers
  import opened Ir
  import opened PointerFlow
  import Cha

  /** The four kinds of pointer: a variable, a static field, a field of an
      abstract object, and the elements of an abstract array object. */
  datatype Pointer = VarPtr(v: Var) | StaticField(field: FieldRef) | InstanceField(obj: Obj, field: FieldRef) | ArrayIndex(obj: Obj)

  /** The collaborators the solver calls into: the heap model's object for an
      allocation site, the callee of a static call, and the method a call
      dispatches to for a receiver of the given type (None for null). */
  datatype Oracles = Oracles(heap: Stmt -> Obj, staticCallee: Stmt -> MethodId, dispatch: (Type, Stmt) -> Option<MethodId>)

  datatype State = State(graph: Graph<Pointer, Obj>, reachable: set<MethodId>, edges: set<Cha.CallEdge>)

  predicate Flows(s: State, a: Pointer, b: Pointer) {
    b in SuccsOf(s.graph, a)
  }

  /** `o` is in pt(p) or waits in the worklist for `p`. */
  ghost predicate Reaches(s: State, p: Pointer, o: Obj) {
    o in Pt(s.graph, p) || PendingAt(s.graph, p, o)
  }

  /** `s'` follows `s` by steps that leave points-to sets alone: edges,
      worklist entries, reachable methods and call edges are only added. */
  ghost predicate Extends(s: State, s': State) {
    Grows(s.graph, s'.graph) && s.reachable <= s'.reachable && s.edges <= s'.edges
  }

  lemma ExtendsTrans(s1: State, s2: State, s3: State)
    requires Extends(s1, s2) && Extends(s2, s3)
    ensures Extends(s1, s3)
  {
    GrowsTrans(s1.graph, s2.graph, s3.graph);
  }

  lemma ReachesStable(s: State, s': State, p: Pointer, o: Obj)
    requires Extends(s, s') && Reaches(s, p, o)
    ensures Reaches(s', p, o)
  {
    if o !in Pt(s.graph, p) {
      PendingGrows(s.graph, s'.graph, p, o);
    }
  }

  /** The effect `addReachable` has for one statement of a new method. */
  ghost predicate Scanned(or: Oracles, st: Stmt, s: State) {
    && (IsNew(st) ==> Reaches(s, VarPtr(st.kind.lvalue.v), or.heap(st)))
    && (IsCopy(st) ==> Flows(s, VarPtr(st.kind.rvalue.v), VarPtr(st.kind.lvalue.v)))
    && (IsStaticLoad(st) ==> Flows(s, StaticField(st.kind.rvalue.access.field), VarPtr(st.kind.lvalue.v)))
    && (IsStaticStore(st) ==> Flows(s, VarPtr(st.kind.rvalue.v), StaticField(st.kind.lvalue.access.field)))
    && (IsStaticInvoke(st) ==> Cha.CallEdge(Static, st, or.staticCallee(st)) in s.edges)
  }

  lemma ScannedStable(or: Oracles, st: Stmt, s: State, s': State)
    requires Extends(s, s') && Scanned(or, st, s)
    ensures Scanned(or, st, s')
  {
    if IsNew(st) {
      ReachesStable(s, s', VarPtr(st.kind.lvalue.v), or.heap(st));
    }
  }

  /** The argument-to-parameter edges of a call to `callee`. */
  function ArgEdges(prog: Program, call: InvokeExp, callee: MethodId): (r: seq<(Pointer, Pointer)>)
    ensures |r| <= |call.args|
  {
    var ps := IrOf(prog, callee).params;
    var n := if |call.args| < |ps| then |call.args| else |ps|;
    seq(n, i requires 0 <= i < n => (VarPtr(call.args[i]), VarPtr(ps[i])))
  }

  /** The return-variable-to-result edges of a call to `callee`. */
  function ReturnEdges(prog: Program, result: Var, callee: MethodId): seq<(Pointer, Pointer)> {
    var rs := IrOf(prog, callee).returnVars;
    seq(|rs|, i requires 0 <= i < |rs| => (VarPtr(rs[i]), VarPtr(result)))
  }

  /** A call edge is wired when its callee is reachable, each argument flows
      to the matching parameter, and each return variable flows to the
      call's result variable. */
  ghost predicate Wired(prog: Program, e: Cha.CallEdge, s: State) {
    && e.site.kind.Invoke?
    && e.callee in s.reachable
    && (forall k :: 0 <= k < |ArgEdges(prog, e.site.kind.invokeExp, e.callee)| ==>
          var pq := ArgEdges(prog, e.site.kind.invokeExp, e.callee)[k]; Flows(s, pq.0, pq.1))
    && (e.site.kind.result.Some? ==>
          forall k :: 0 <= k < |ReturnEdges(prog, e.site.kind.result.value, e.callee)| ==>
            var pq := ReturnEdges(prog, e.site.kind.result.value, e.callee)[k]; Flows(s, pq.0, pq.1))
  }

  lemma WiredStable(prog: Program, e: Cha.CallEdge, s: State, s': State)
    requires Extends(s, s') && Wired(prog, e, s)
    ensures Wired(prog, e, s')
  {
  }

  /** Whatever became reachable between `s` and `s'` has been scanned, and
      every call edge added between them is wired. */
  ghost predicate NewWorkDone(prog: Program, or: Oracles, s: State, s': State) {
    && (forall m, st :: m in s'.reachable && m !in s.reachable && st in StmtsOf(prog, m) ==> Scanned(or, st, s'))
    && (forall e :: e in s'.edges && e !in s.edges ==> Wired(prog, e, s'))
  }

  lemma NewWorkDoneTrans(prog: Program, or: Oracles, s1: State, s2: State, s3: State)
    requires Extends(s1, s2) && Extends(s2, s3)
    requires NewWorkDone(prog, or, s1, s2) && NewWorkDone(prog, or, s2, s3)
    ensures NewWorkDone(prog, or, s1, s3)
  {
    forall m, st | m in s3.reachable && m !in s1.reachable && st in StmtsOf(prog, m) ensures Scanned(or, st, s3) {
      if m in s2.reachable {
        ScannedStable(or, st, s2, s3);
      }
    }
    forall e | e in s3.edges && e !in s1.edges ensures Wired(prog, e, s3) {
      if e in s2.edges {
        WiredStable(prog, e, s2, s3);
      }
    }
  }

  lemma FewerUnreached(k: set<MethodId>, a: set<MethodId>, b: set<MethodId>, m: MethodId)
    requires a + {m} <= b && m in k && m !in a
    ensures |k - b| < |k - a|
  {
    var d := (k - a) - (k - b);
    assert m in d;
    assert k - a == (k - b) + d;
    assert (k - b) * d == {};
    assert |d| >= 1;
  }

  /** `addReachable`: a method not yet reachable becomes reachable and its
      statements are scanned once; a reachable method is left alone. */
  method AddReachable(prog: Program, or: Oracles, s: State, m: MethodId) returns (s': State)
    requires Closed(s.graph)
    ensures Closed(s'.graph) && Extends(s, s') && NewWorkDone(prog, or, s, s')
    ensures m in s'.reachable
    ensures m in s.reachable ==> s' == s
    decreases |prog.methods.Keys - s.reachable|, 0
  {
    if m in s.reachable {
      return s;
    }
    s' := s.(reachable := s.reachable + {m});
    var stmts := StmtsOf(prog, m);
    var i := 0;
    while i < |stmts|
      invariant 0 <= i <= |stmts|
      invariant Closed(s'.graph) && Extends(s, s') && m in s'.reachable
      invariant forall j :: 0 <= j < i ==> Scanned(or, stmts[j], s')
      invariant forall m', st :: m' in s'.reachable && m' !in s.reachable && m' != m && st in StmtsOf(prog, m') ==> Scanned(or, st, s')
      invariant forall e :: e in s'.edges && e !in s.edges ==> Wired(prog, e, s')
    {
      assert m in prog.methods.Keys;
      FewerUnreached(prog.methods.Keys, s.reachable, s'.reachable, m);
      var s2 := VisitStmt(prog, or, s', stmts[i]);
      forall j | 0 <= j < i ensures Scanned(or, stmts[j], s2) {
        ScannedStable(or, stmts[j], s', s2);
      }
      forall m', st | m' in s2.reachable && m' !in s.reachable && m' != m && st in StmtsOf(prog, m') ensures Scanned(or, st, s2) {
        if m' in s'.reachable {
          ScannedStable(or, st, s', s2);
        }
      }
      forall e | e in s2.edges && e !in s.edges ensures Wired(prog, e, s2) {
        if e in s'.edges {
          WiredStable(prog, e, s', s2);
        }
      }
      ExtendsTrans(s, s', s2);
      s' := s2;
      i := i + 1;
    }
  }

  /** One statement of a newly reachable method: `x = new T` enqueues
      `(x, {o})` for the site's object, a copy and the static field accesses
      add their flow edge, and a static call goes to `VisitStaticInvoke`;
      every other statement is skipped. */
  method VisitStmt(prog: Program, or: Oracles, s: State, st: Stmt) returns (s': State)
    requires Closed(s.graph)
    ensures Closed(s'.graph) && Extends(s, s') && NewWorkDone(prog, or, s, s')
    ensures Scanned(or, st, s')
    ensures IsNew(st) ==> s'.graph.worklist == s.graph.worklist + [Entry(VarPtr(st.kind.lvalue.v), Fresh({or.heap(st)}))]
    decreases |prog.methods.Keys - s.reachable|, 3
  {
    if IsCopy(st) {
      ClosedAddPfgEdge(s.graph, VarPtr(st.kind.rvalue.v), VarPtr(st.kind.lvalue.v));
      s' := s.(graph := AddPfgEdge(s.graph, VarPtr(st.kind.rvalue.v), VarPtr(st.kind.lvalue.v)));
    } else if IsNew(st) {
      var x := VarPtr(st.kind.lvalue.v);
      ClosedEnqueue(s.graph, x, Fresh({or.heap(st)}));
      s' := s.(graph := Enqueue(s.graph, x, Fresh({or.heap(st)})));
      EntryPending(s'.graph, x, {or.heap(st)}, or.heap(st));
    } else if IsStaticLoad(st) {
      ClosedAddPfgEdge(s.graph, StaticField(st.kind.rvalue.access.field), VarPtr(st.kind.lvalue.v));
      s' := s.(graph := AddPfgEdge(s.graph, StaticField(st.kind.rvalue.access.field), VarPtr(st.kind.lvalue.v)));
    } else if IsStaticStore(st) {
      ClosedAddPfgEdge(s.graph, VarPtr(st.kind.rvalue.v), StaticField(st.kind.lvalue.access.field));
      s' := s.(graph := AddPfgEdge(s.graph, VarPtr(st.kind.rvalue.v), StaticField(st.kind.lvalue.access.field)));
    } else if IsStaticInvoke(st) {
      s' := VisitStaticInvoke(prog, or, s, st);
    } else {
      s' := s;
    }
  }

  /** `callGraph.addEdge(e)` and what follows it when the edge is new: the
      callee becomes reachable, then arguments are wired to parameters and,
      when the call has a result variable, return variables to it. An edge
      already present changes nothing. */
  method AddCallEdge(prog: Program, or: Oracles, s: State, e: Cha.CallEdge) returns (s': State)
    requires Closed(s.graph) && e.site.kind.Invoke?
    ensures Closed(s'.graph) && Extends(s, s') && NewWorkDone(prog, or, s, s')
    ensures e in s'.edges
    ensures e in s.edges ==> s' == s
    decreases |prog.methods.Keys - s.reachable|, 1
  {
    if e in s.edges {
      return s;
    }
    var site := e.site;
    var s1 := s.(edges := s.edges + {e});
    var s2 := AddReachable(prog, or, s1, e.callee);
    var g3 := AddPfgEdges(s2.graph, ArgEdges(prog, site.kind.invokeExp, e.callee));
    var s3 := s2.(graph := g3);
    s' := s3;
    if site.kind.result.Some? {
      var g4 := AddPfgEdges(s3.graph, ReturnEdges(prog, site.kind.result.value, e.callee));
      s' := s3.(graph := g4);
    }
    ExtendsTrans(s, s1, s2);
    ExtendsTrans(s, s2, s3);
    ExtendsTrans(s, s3, s');
    assert Wired(prog, e, s');
    forall e' | e' in s'.edges && e' !in s.edges ensures Wired(prog, e', s') {
      if e' != e {
        WiredStable(prog, e', s2, s');
      }
    }
    forall m, st' | m in s'.reachable && m !in s.reachable && st' in StmtsOf(prog, m) ensures Scanned(or, st', s') {
      ScannedStable(or, st', s2, s');
    }
  }

  /** A static call in a newly reachable method adds the STATIC call edge to
      the callee resolved for it. */
  method VisitStaticInvoke(prog: Program, or: Oracles, s: State, st: Stmt) returns (s': State)
    requires Closed(s.graph) && IsStaticInvoke(st)
    ensures Closed(s'.graph) && Extends(s, s') && NewWorkDone(prog, or, s, s')
    ensures Cha.CallEdge(Static, st, or.staticCallee(st)) in s'.edges
    ensures Cha.CallEdge(Static, st, or.staticCallee(st)) in s.edges ==> s' == s
    decreases |prog.methods.Keys - s.reachable|, 2
  {
    s' := AddCallEdge(prog, or, s, Cha.CallEdge(Static, st, or.staticCallee(st)));
  }

  /** `y = x.f` for each load of `v`'s field: the field of `o` flows to `y`. */
  function LoadFieldEdges(prog: Program, v: Var, o: Obj): seq<(Pointer, Pointer)> {
    var ls := LoadFieldsOf(prog, v);
    seq(|ls|, i requires 0 <= i < |ls| =>
      assert ls[i] in ls; (InstanceField(o, ls[i].kind.rvalue.access.field), VarPtr(ls[i].kind.lvalue.v)))
  }

  /** `x.f = y` for each store to `v`'s field: `y` flows to the field of `o`. */
  function StoreFieldEdges(prog: Program, v: Var, o: Obj): seq<(Pointer, Pointer)> {
    var ss := StoreFieldsOf(prog, v);
    seq(|ss|, i requires 0 <= i < |ss| =>
      assert ss[i] in ss; (VarPtr(ss[i].kind.rvalue.v), InstanceField(o, ss[i].kind.lvalue.access.field)))
  }

  /** `y = x[i]`: the elements of `o` flow to `y`. */
  function LoadArrayEdges(prog: Program, v: Var, o: Obj): seq<(Pointer, Pointer)> {
    var ls := LoadArraysOf(prog, v);
    seq(|ls|, i requires 0 <= i < |ls| => assert ls[i] in ls; (ArrayIndex(o), VarPtr(ls[i].kind.lvalue.v)))
  }

  /** `x[i] = y`: `y` flows to the elements of `o`. */
  function StoreArrayEdges(prog: Program, v: Var, o: Obj): seq<(Pointer, Pointer)> {
    var ss := StoreArraysOf(prog, v);
    seq(|ss|, i requires 0 <= i < |ss| => assert ss[i] in ss; (VarPtr(ss[i].kind.rvalue.v), ArrayIndex(o)))
  }

  /** All the edges an object `o` of `v` brings, in the order the solver adds them. */
  function ObjEdges(prog: Program, v: Var, o: Obj): seq<(Pointer, Pointer)> {
    LoadFieldEdges(prog, v, o) + StoreFieldEdges(prog, v, o) + LoadArrayEdges(prog, v, o) + StoreArrayEdges(prog, v, o)
  }

  /** An instance call on a receiver object `o` dispatching to `callee`:
      `callee`'s `this` receives `o`, and the call edge is present. */
  ghost predicate CallHandled(prog: Program, inv: Stmt, callee: MethodId, o: Obj, s: State)
    requires inv.kind.Invoke?
  {
    Reaches(s, VarPtr(IrOf(prog, callee).thisVar), o) && Cha.CallEdge(inv.kind.invokeExp.kind, inv, callee) in s.edges
  }

  /** An instance call of `v`, with a receiver of type `t` that dispatches. */
  predicate Dispatches(prog: Program, or: Oracles, v: Var, inv: Stmt, t: Type) {
    inv in InvokesOf(prog, v) && !IsStaticInvoke(inv) && or.dispatch(t, inv).Some?
  }

  /** What the solver does for an object `o` newly in pt(v): the field and
      array edges and every dispatching instance call of `v`. */
  ghost predicate ObjHandled(prog: Program, or: Oracles, v: Var, o: Obj, s: State) {
    && (forall k :: 0 <= k < |ObjEdges(prog, v, o)| ==> Flows(s, ObjEdges(prog, v, o)[k].0, ObjEdges(prog, v, o)[k].1))
    && (forall inv :: Dispatches(prog, or, v, inv, o.ty) ==> CallHandled(prog, inv, or.dispatch(o.ty, inv).value, o, s))
  }

  lemma ObjHandledStable(prog: Program, or: Oracles, v: Var, o: Obj, s: State, s': State)
    requires Extends(s, s') && ObjHandled(prog, or, v, o, s)
    ensures ObjHandled(prog, or, v, o, s')
  {
    forall inv | Dispatches(prog, or, v, inv, o.ty) ensures CallHandled(prog, inv, or.dispatch(o.ty, inv).value, o, s') {
      ReachesStable(s, s', VarPtr(IrOf(prog, or.dispatch(o.ty, inv).value).thisVar), o);
    }
  }

  /** `processCall(v, recv)`: for each instance call of `v` whose receiver
      `recv` dispatches, enqueue `(this, {recv})` for the callee and add the
      call edge (wiring it when new); static calls and calls that do not
      dispatch are skipped and the loop goes on. */
  method ProcessCall(prog: Program, or: Oracles, s: State, v: Var, recv: Obj) returns (s': State)
    requires Closed(s.graph)
    ensures Closed(s'.graph) && Extends(s, s') && NewWorkDone(prog, or, s, s')
    ensures forall inv :: Dispatches(prog, or, v, inv, recv.ty) ==>
              var callee := or.dispatch(recv.ty, inv).value;
              && Entry(VarPtr(IrOf(prog, callee).thisVar), Fresh({recv})) in s'.graph.worklist[|s.graph.worklist|..]
              && Cha.CallEdge(inv.kind.invokeExp.kind, inv, callee) in s'.edges
  {
    var invs := InvokesOf(prog, v);
    s' := s;
    var i := 0;
    while i < |invs|
      invariant 0 <= i <= |invs|
      invariant Closed(s'.graph) && Extends(s, s') && NewWorkDone(prog, or, s, s')
      invariant forall j :: 0 <= j < i && Dispatches(prog, or, v, invs[j], recv.ty) ==>
                  var callee := or.dispatch(recv.ty, invs[j]).value;
                  && Entry(VarPtr(IrOf(prog, callee).thisVar), Fresh({recv})) in s'.graph.worklist[|s.graph.worklist|..]
                  && Cha.CallEdge(invs[j].kind.invokeExp.kind, invs[j], callee) in s'.edges
    {
      var inv := invs[i];
      assert inv in invs;
      if !IsStaticInvoke(inv) && or.dispatch(recv.ty, inv).Some? {
        var callee := or.dispatch(recv.ty, inv).value;
        var thisPtr := VarPtr(IrOf(prog, callee).thisVar);
        ClosedEnqueue(s'.graph, thisPtr, Fresh({recv}));
        var s1 := s'.(graph := Enqueue(s'.graph, thisPtr, Fresh({recv})));
        var s2 := AddCallEdge(prog, or, s1, Cha.CallEdge(inv.kind.invokeExp.kind, inv, callee));
        NewWorkDoneTrans(prog, or, s, s', s1);
        NewWorkDoneTrans(prog, or, s, s1, s2);
        ExtendsTrans(s, s', s1);
        ExtendsTrans(s, s1, s2);
        SuffixGrows(s.graph.worklist, s'.graph.worklist, s2.graph.worklist);
        assert s2.graph.worklist[|s'.graph.worklist|] == Entry(thisPtr, Fresh({recv}));
        s' := s2;
      }
      i := i + 1;
    }
    forall inv | Dispatches(prog, or, v, inv, recv.ty)
      ensures var callee := or.dispatch(recv.ty, inv).value;
              && Entry(VarPtr(IrOf(prog, callee).thisVar), Fresh({recv})) in s'.graph.worklist[|s.graph.worklist|..]
              && Cha.CallEdge(inv.kind.invokeExp.kind, inv, callee) in s'.edges
    {
      var j :| 0 <= j < |invs| && invs[j] == inv;
    }
  }

  /** What was appended after `a` is still there after more appends. */
  lemma SuffixGrows<T>(a: seq<T>, b: seq<T>, c: seq<T>)
    requires a <= b <= c
    ensures forall x :: x in b[|a|..] ==> x in c[|a|..]
  {
    forall x | x in b[|a|..] ensures x in c[|a|..] {
      var i :| |a| <= i < |b| && b[i] == x;
      assert c[i] == x;
    }
  }

  /** The body of the solver's loop over the delta for one object `o` of
      variable `v`: the load/store field and array edges, then the calls. */
  method ProcessObj(prog: Program, or: Oracles, s: State, v: Var, o: Obj) returns (s': State)
    requires Closed(s.graph)
    ensures Closed(s'.graph) && Extends(s, s') && NewWorkDone(prog, or, s, s')
    ensures ObjHandled(prog, or, v, o, s')
  {
    var g1 := AddPfgEdges(s.graph, ObjEdges(prog, v, o));
    var s1 := s.(graph := g1);
    s' := ProcessCall(prog, or, s1, v, o);
    ExtendsTrans(s, s1, s');
    NewWorkDoneTrans(prog, or, s, s1, s');
    forall inv | Dispatches(prog, or, v, inv, o.ty) ensures CallHandled(prog, inv, or.dispatch(o.ty, inv).value, o, s') {
      var callee := or.dispatch(o.ty, inv).value;
      var e := Entry(VarPtr(IrOf(prog, callee).thisVar), Fresh({o}));
      assert e in s'.graph.worklist;
      EntryPending(s'.graph, VarPtr(IrOf(prog, callee).thisVar), {o}, o);
    }
  }

  /** The solver invariant: the flow graph is closed, every statement of
      every reachable method has been scanned, every call edge is wired, and
      every object a variable points to has been handled. */
  ghost predicate Inv(prog: Program, or: Oracles, s: State) {
    && Closed(s.graph)
    && (forall m, st :: m in s.reachable && st in StmtsOf(prog, m) ==> Scanned(or, st, s))
    && (forall e :: e in s.edges ==> Wired(prog, e, s))
    && (forall v, o :: o in Pt(s.graph, VarPtr(v)) ==> ObjHandled(prog, or, v, o, s))
  }

  /** `s2` is `s` after its head entry was polled and propagated. */
  ghost predicate Polled(s: State, s2: State, delta: set<Obj>) {
    && s.graph.worklist != []
    && s2.reachable == s.reachable && s2.edges == s.edges
    && var e := s.graph.worklist[0];
       Propagated(s.graph.(worklist := s.graph.worklist[1..]), e.pointer, Contents(s.graph, e.pts), s2.graph, delta)
  }

  lemma ReachesPolled(s: State, s2: State, delta: set<Obj>, p: Pointer, o: Obj)
    requires Polled(s, s2, delta) && Reaches(s, p, o)
    ensures Reaches(s2, p, o)
  {
    ReachesAfterPropagate(s.graph, s2.graph, delta, p, o);
  }

  lemma ScannedPolled(or: Oracles, st: Stmt, s: State, s2: State, delta: set<Obj>)
    requires Polled(s, s2, delta) && Scanned(or, st, s)
    ensures Scanned(or, st, s2)
  {
    if IsNew(st) {
      ReachesPolled(s, s2, delta, VarPtr(st.kind.lvalue.v), or.heap(st));
    }
  }

  lemma ObjHandledPolled(prog: Program, or: Oracles, v: Var, o: Obj, s: State, s2: State, delta: set<Obj>)
    requires Polled(s, s2, delta) && ObjHandled(prog, or, v, o, s)
    ensures ObjHandled(prog, or, v, o, s2)
  {
    forall inv | Dispatches(prog, or, v, inv, o.ty) ensures CallHandled(prog, inv, or.dispatch(o.ty, inv).value, o, s2) {
      ReachesPolled(s, s2, delta, VarPtr(IrOf(prog, or.dispatch(o.ty, inv).value).thisVar), o);
    }
  }

  /** After polling, the invariant holds except for the delta's objects of a
      polled variable, which are still to be handled. */
  lemma InvPolled(prog: Program, or: Oracles, s: State, s2: State, delta: set<Obj>)
    requires Inv(prog, or, s) && Polled(s, s2, delta)
    ensures Closed(s2.graph)
    ensures forall m, st :: m in s2.reachable && st in StmtsOf(prog, m) ==> Scanned(or, st, s2)
    ensures forall e :: e in s2.edges ==> Wired(prog, e, s2)
    ensures forall v, o :: o in Pt(s2.graph, VarPtr(v)) && !(VarPtr(v) == s.graph.worklist[0].pointer && o in delta) ==>
              ObjHandled(prog, or, v, o, s2)
  {
    ClosedPropagate(s.graph, s2.graph, delta);
    forall m, st | m in s2.reachable && st in StmtsOf(prog, m) ensures Scanned(or, st, s2) {
      ScannedPolled(or, st, s, s2, delta);
    }
    forall v, o | o in Pt(s2.graph, VarPtr(v)) && !(VarPtr(v) == s.graph.worklist[0].pointer && o in delta)
      ensures ObjHandled(prog, or, v, o, s2)
    {
      ObjHandledPolled(prog, or, v, o, s, s2, delta);
    }
  }

  /** Every statement of a reachable method is scanned, every call edge is
      wired, and every object in a variable's points-to set is handled,
      except the objects `rest` still pending for `v`. */
  ghost predicate HandledExcept(prog: Program, or: Oracles, v: Var, rest: set<Obj>, s: State) {
    && (forall m, st :: m in s.reachable && st in StmtsOf(prog, m) ==> Scanned(or, st, s))
    && (forall e :: e in s.edges ==> Wired(prog, e, s))
    && (forall v', o :: o in Pt(s.graph, VarPtr(v')) && !(v' == v && o in rest) ==> ObjHandled(prog, or, v', o, s))
  }

  /** Handling one pending object keeps the rest of the state handled. */
  lemma HandledStep(prog: Program, or: Oracles, v: Var, o: Obj, rest: set<Obj>, s: State, s': State)
    requires o in rest && HandledExcept(prog, or, v, rest, s)
    requires Extends(s, s') && NewWorkDone(prog, or, s, s') && ObjHandled(prog, or, v, o, s')
    ensures HandledExcept(prog, or, v, rest - {o}, s')
  {
    forall m, st | m in s'.reachable && st in StmtsOf(prog, m) ensures Scanned(or, st, s') {
      if m in s.reachable {
        ScannedStable(or, st, s, s');
      }
    }
    forall e' | e' in s'.edges ensures Wired(prog, e', s') {
      if e' in s.edges {
        WiredStable(prog, e', s, s');
      }
    }
    forall v', o' | o' in Pt(s'.graph, VarPtr(v')) && !(v' == v && o' in rest - {o}) ensures ObjHandled(prog, or, v', o', s') {
      if !(v' == v && o' == o) {
        ObjHandledStable(prog, or, v', o', s, s');
      }
    }
  }

  /** One iteration of `analyze`: poll the head entry, propagate it, and for
      a variable that gained objects handle each new object. */
  method Step(prog: Program, or: Oracles, s: State) returns (s': State)
    requires Inv(prog, or, s) && s.graph.worklist != []
    ensures Inv(prog, or, s')
    ensures forall p :: Pt(s.graph, p) <= Pt(s'.graph, p)
    ensures Contents(s.graph, s.graph.worklist[0].pts) <= Pt(s'.graph, s.graph.worklist[0].pointer)
    ensures s.reachable <= s'.reachable && s.edges <= s'.edges
  {
    var e := s.graph.worklist[0];
    var g2, delta := Propagate(s.graph.(worklist := s.graph.worklist[1..]), e.pointer, Contents(s.graph, e.pts));
    var s2 := s.(graph := g2);
    InvPolled(prog, or, s, s2, delta);
    forall p ensures Pt(s.graph, p) <= Pt(s2.graph, p) {
      assert Pt(s.graph, p) == Pt(s.graph.(worklist := s.graph.worklist[1..]), p);
    }
    s' := s2;
    if e.pointer.VarPtr? && delta != {} {
      var v := e.pointer.v;
      var rest := delta;
      while rest != {}
        invariant rest <= delta
        invariant Closed(s'.graph) && Extends(s2, s')
        invariant HandledExcept(prog, or, v, rest, s')
        decreases rest
      {
        var o :| o in rest;
        var s3 := ProcessObj(prog, or, s', v, o);
        HandledStep(prog, or, v, o, rest, s', s3);
        ExtendsTrans(s2, s', s3);
        s' := s3;
        rest := rest - {o};
      }
    }
  }

  /** `analyze`: run steps until the worklist is empty, for at most `fuel`
      steps. */
  method Analyze(prog: Program, or: Oracles, s: State, fuel: nat) returns (s': State, done: bool)
    requires Inv(prog, or, s)
    ensures Inv(prog, or, s')
    ensures forall p :: Pt(s.graph, p) <= Pt(s'.graph, p)
    ensures s.reachable <= s'.reachable && s.edges <= s'.edges
    ensures done <==> s'.graph.worklist == []
  {
    s' := s;
    var n := 0;
    while s'.graph.worklist != [] && n < fuel
      invariant Inv(prog, or, s')
      invariant forall p :: Pt(s.graph, p) <= Pt(s'.graph, p)
      invariant s.reachable <= s'.reachable && s.edges <= s'.edges
      decreases fuel - n
    {
      s' := Step(prog, or, s');
      n := n + 1;
    }
    done := s'.graph.worklist == [];
  }

  /** `solve`: make the entry method reachable, then analyze. */
  method Solve(prog: Program, or: Oracles, main: MethodId, fuel: nat) returns (s: State, done: bool)
    ensures Inv(prog, or, s) && main in s.reachable
    ensures done <==> s.graph.worklist == []
  {
    var s0 := State(Empty(), {}, {});
    ClosedEmpty<Pointer, Obj>();
    var s1 := AddReachable(prog, or, s0, main);
    s, done := Analyze(prog, or, s1, fuel);
  }

  /** At an empty worklist the invariant is a solution of the points-to
      constraints: points-to sets flow along every edge, every allocation
      site of a reachable method is in pt of its variable, every call edge
      is wired with its callee reachable, and every object a variable points
      to has reached `this` of each method its calls dispatch to, with the
      call edge present. */
  lemma Fixpoint(prog: Program, or: Oracles, s: State)
    requires Inv(prog, or, s) && s.graph.worklist == []
    ensures forall a, b :: Flows(s, a, b) ==> Pt(s.graph, a) <= Pt(s.graph, b)
    ensures forall m, st :: m in s.reachable && st in StmtsOf(prog, m) && IsNew(st) ==>
              or.heap(st) in Pt(s.graph, VarPtr(st.kind.lvalue.v))
    ensures forall e :: e in s.edges ==> Wired(prog, e, s)
    ensures forall v, o, inv :: o in Pt(s.graph, VarPtr(v)) && Dispatches(prog, or, v, inv, o.ty) ==>
              var callee := or.dispatch(o.ty, inv).value;
              o in Pt(s.graph, VarPtr(IrOf(prog, callee).thisVar)) && Cha.CallEdge(inv.kind.invokeExp.kind, inv, callee) in s.edges
  {
    ClosedAtFixpoint(s.graph);
    forall m, st | m in s.reachable && st in StmtsOf(prog, m) && IsNew(st)
      ensures or.heap(st) in Pt(s.graph, VarPtr(st.kind.lvalue.v))
    {
      assert Scanned(or, st, s);
      assert !PendingAt(s.graph, VarPtr(st.kind.lvalue.v), or.heap(st));
    }
    forall v, o, inv | o in Pt(s.graph, VarPtr(v)) && Dispatches(prog, or, v, inv, o.ty)
      ensures var callee := or.dispatch(o.ty, inv).value;
              o in Pt(s.graph, VarPtr(IrOf(prog, callee).thisVar)) && Cha.CallEdge(inv.kind.invokeExp.kind, inv, callee) in s.edges
    {
      assert ObjHandled(prog, or, v, o, s);
      var callee := or.dispatch(o.ty, inv).value;
      assert !PendingAt(s.graph, VarPtr(IrOf(prog, callee).thisVar), o);
    }
  }
}
