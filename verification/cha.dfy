/** Class-hierarchy analysis: method dispatch along the superclass chain,
    call-site resolution, and the breadth-first construction of the call
    graph from an entry method. */
module Cha {
  import opened Wrappers
  import opened Ir

  /** A class: its superclass (None at the root), the subsignatures it
      declares methods for, and its depth in the hierarchy. */
  datatype ClassInfo = ClassInfo(superClass: Option<ClassId>, declared: set<string>, depth: nat)

  type Hierarchy = map<ClassId, ClassInfo>

  /** The hierarchy is acyclic: a known superclass sits strictly higher. */
  ghost predicate WellFormed(h: Hierarchy) {
    forall c :: c in h && h[c].superClass.Some? && h[c].superClass.value in h ==>
      h[h[c].superClass.value].depth < h[c].depth
  }

  function Rank(h: Hierarchy, c: ClassId): nat {
    if c in h then h[c].depth + 1 else 0
  }

  /** `getDeclaredMethod(sig) != null`. A class outside the hierarchy
      declares nothing. */
  predicate Declares(h: Hierarchy, c: ClassId, sig: string) {
    c in h && sig in h[c].declared
  }

  /** The class followed by its superclasses, up to the root or to the first
      class outside the hierarchy. */
  function Chain(h: Hierarchy, c: ClassId): (r: seq<ClassId>)
    requires WellFormed(h)
    ensures |r| > 0 && r[0] == c
    decreases Rank(h, c)
  {
    if c in h && h[c].superClass.Some? then [c] + Chain(h, h[c].superClass.value) else [c]
  }

  /** `dispatch`: the declared method of `c` for `sig` if there is one,
      else the dispatch from the superclass, else None at the root. */
  function Dispatch(h: Hierarchy, c: ClassId, sig: string): (r: Option<MethodId>)
    requires WellFormed(h)
    ensures r.Some? ==> r.value.subsignature == sig && Declares(h, r.value.declaringClass, sig)
    decreases Rank(h, c)
  {
    if Declares(h, c, sig) then Some(MethodId(c, sig))
    else if c in h && h[c].superClass.Some? then Dispatch(h, h[c].superClass.value, sig)
    else None
  }

  /** The index of the first class of `ch` that declares `sig`, if any: the
      reference definition of a lookup up the superclass chain. */
  function FirstDeclaring(h: Hierarchy, ch: seq<ClassId>, sig: string): (r: Option<nat>)
    ensures r.None? <==> forall i :: 0 <= i < |ch| ==> !Declares(h, ch[i], sig)
    ensures r.Some? ==> r.value < |ch| && Declares(h, ch[r.value], sig)
                        && forall j :: 0 <= j < r.value ==> !Declares(h, ch[j], sig)
  {
    if ch == [] then None
    else if Declares(h, ch[0], sig) then Some(0)
    else match FirstDeclaring(h, ch[1..], sig)
      case None => None
      case Some(i) => Some(i + 1)
  }

  /** Dispatch returns the method of the first class on the chain from `c`
      upward that declares `sig`, and None when no class of it does. */
  lemma {:induction false} DispatchFirstDeclaring(h: Hierarchy, c: ClassId, sig: string)
    requires WellFormed(h)
    ensures var ch := Chain(h, c);
            Dispatch(h, c, sig) == match FirstDeclaring(h, ch, sig)
                                   case None => None
                                   case Some(i) => Some(MethodId(ch[i], sig))
    decreases Rank(h, c)
  {
    var ch := Chain(h, c);
    if Declares(h, c, sig) {
    } else if c in h && h[c].superClass.Some? {
      var p := h[c].superClass.value;
      DispatchFirstDeclaring(h, p, sig);
      assert ch[1..] == Chain(h, p);
    }
  }

  /** The classes whose superclass is `c`. */
  function DirectSubclasses(h: Hierarchy, c: ClassId): set<ClassId> {
    set s | s in h && h[s].superClass == Some(c)
  }

  predicate IsLeaf(h: Hierarchy, c: ClassId) {
    DirectSubclasses(h, c) == {}
  }

  /** The known classes strictly below `c`'s depth; shrinks along subclass
      links. */
  function Below(h: Hierarchy, c: ClassId): set<ClassId> {
    if c in h then set x | x in h && h[x].depth > h[c].depth else h.Keys
  }

  lemma BelowShrinks(h: Hierarchy, c: ClassId, s: ClassId)
    requires WellFormed(h) && s in DirectSubclasses(h, c)
    ensures Below(h, s) < Below(h, c)
  {
    assert s in Below(h, c) && s !in Below(h, s);
  }

  /** `getSubClassAndDisPatch`: the dispatch results at the leaves reached
      from `c` through direct-subclass links (`c` itself when it is a leaf). */
  function SubDispatch(h: Hierarchy, c: ClassId, sig: string): (r: set<Option<MethodId>>)
    requires WellFormed(h)
    ensures forall x :: x in r && x.Some? ==> x.value.subsignature == sig && Declares(h, x.value.declaringClass, sig)
    decreases Below(h, c)
  {
    var subs := DirectSubclasses(h, c);
    if subs == {} then {Dispatch(h, c, sig)}
    else
      assert forall s :: s in subs ==> Below(h, s) < Below(h, c) by {
        forall s | s in subs ensures Below(h, s) < Below(h, c) {
          BelowShrinks(h, c, s);
        }
      }
      set s, m | s in subs && m in SubDispatch(h, s, sig) :: m
  }

  /** Chains are closed under taking a member's own chain. */
  lemma {:induction false} ChainTrans(h: Hierarchy, l: ClassId, a: ClassId, b: ClassId)
    requires WellFormed(h) && a in Chain(h, l) && b in Chain(h, a)
    ensures b in Chain(h, l)
    decreases Rank(h, l)
  {
    if a != l {
      ChainTrans(h, h[l].superClass.value, a, b);
    }
  }

  /** A member `c` of `l`'s chain is `l` itself or has a direct subclass on
      that chain. */
  lemma {:induction false} ChainStep(h: Hierarchy, l: ClassId, c: ClassId)
    requires WellFormed(h) && c in Chain(h, l)
    ensures c == l || exists s :: s in DirectSubclasses(h, c) && s in Chain(h, l)
    decreases Rank(h, l)
  {
    if c != l {
      var p := h[l].superClass.value;
      if p == c {
        assert l in DirectSubclasses(h, c);
      } else {
        ChainStep(h, p, c);
        var s :| s in DirectSubclasses(h, c) && s in Chain(h, p);
        assert s in Chain(h, l);
      }
    }
  }

  /** `getSubClassAndDisPatch` collects exactly the dispatch results at the
      leaves that have `c` on their chain. */
  lemma {:induction false} SubDispatchLeaves(h: Hierarchy, c: ClassId, sig: string)
    requires WellFormed(h)
    ensures forall x :: x in SubDispatch(h, c, sig) <==>
                        exists l :: IsLeaf(h, l) && c in Chain(h, l) && x == Dispatch(h, l, sig)
    decreases Below(h, c)
  {
    var subs := DirectSubclasses(h, c);
    if subs == {} {
      assert c in Chain(h, c);
      forall x | x in SubDispatch(h, c, sig)
        ensures exists l :: IsLeaf(h, l) && c in Chain(h, l) && x == Dispatch(h, l, sig)
      {
        assert x == Dispatch(h, c, sig);
      }
      forall x, l | IsLeaf(h, l) && c in Chain(h, l) && x == Dispatch(h, l, sig)
        ensures x in SubDispatch(h, c, sig)
      {
        ChainStep(h, l, c);
        assert l == c;
      }
    } else {
      forall x | x in SubDispatch(h, c, sig)
        ensures exists l :: IsLeaf(h, l) && c in Chain(h, l) && x == Dispatch(h, l, sig)
      {
        var s :| s in subs && x in SubDispatch(h, s, sig);
        BelowShrinks(h, c, s);
        SubDispatchLeaves(h, s, sig);
        var l :| IsLeaf(h, l) && s in Chain(h, l) && x == Dispatch(h, l, sig);
        assert c in Chain(h, s);
        ChainTrans(h, l, s, c);
      }
      forall x, l | IsLeaf(h, l) && c in Chain(h, l) && x == Dispatch(h, l, sig)
        ensures x in SubDispatch(h, c, sig)
      {
        assert l != c;
        ChainStep(h, l, c);
        var s :| s in subs && s in Chain(h, l);
        BelowShrinks(h, c, s);
        SubDispatchLeaves(h, s, sig);
        assert x in SubDispatch(h, s, sig);
      }
    }
  }

  /** `resolve` for a call in method `caller`: the lookup always uses the
      caller's own subsignature; a static call resolves to the caller itself,
      a special call dispatches from the caller's declaring class, a virtual
      call dispatches from the receiver's static class and from every leaf
      below it, and interface and dynamic calls resolve to nothing. A None
      element is a failed dispatch. */
  function Resolve(h: Hierarchy, caller: MethodId, call: InvokeExp): (r: set<Option<MethodId>>)
    requires WellFormed(h)
    ensures call.kind == Static ==> r == {Some(caller)}
    ensures call.kind == Special ==> |r| == 1
    ensures call.kind == Interface || call.kind == Dynamic ==> r == {}
    ensures forall x :: x in r && x.Some? ==>
              x.value == caller || (Declares(h, x.value.declaringClass, x.value.subsignature) && x.value.subsignature == caller.subsignature)
  {
    var sig := caller.subsignature;
    match call.kind
    case Static => {Some(caller)}
    case Special => {Dispatch(h, caller.declaringClass, sig)}
    case Virtual =>
      if call.base.Some? && call.base.value.ty.Reference? then
        var t := call.base.value.ty.name;
        {Dispatch(h, t, sig)} + SubDispatch(h, t, sig)
      else {}
    case _ => {}
  }

  /** A virtual call resolves to the dispatch from the receiver's static class
      and to the dispatch from every leaf class below it. */
  lemma ResolveVirtual(h: Hierarchy, caller: MethodId, call: InvokeExp)
    requires WellFormed(h) && call.kind == Virtual && call.base.Some? && call.base.value.ty.Reference?
    ensures var t := call.base.value.ty.name;
            forall x :: x in Resolve(h, caller, call) <==>
                        (x == Dispatch(h, t, caller.subsignature)
                         || exists l :: IsLeaf(h, l) && t in Chain(h, l) && x == Dispatch(h, l, caller.subsignature))
  {
    SubDispatchLeaves(h, call.base.value.ty.name, caller.subsignature);
  }

  /** `resolve` as the code stands. A virtual call casts the receiver's
      declared type to `JClass`; a type is never a class object, so the cast
      throws for every virtual call. The other kinds resolve as in `Resolve`. */
  function ResolveAsWritten(h: Hierarchy, caller: MethodId, call: InvokeExp): (r: Result<set<Option<MethodId>>, InvokeExp>)
    requires WellFormed(h)
    ensures r.Failure? <==> call.kind == Virtual
    ensures call.kind == Static ==> r == Success({Some(caller)})
    ensures call.kind == Special ==> r.Success? && |r.value| == 1
    ensures call.kind == Interface || call.kind == Dynamic ==> r == Success({})
  {
    if call.kind == Virtual then Failure(call) else Success(Resolve(h, caller, call))
  }

  /** One class `A` declaring `foo()`, and a call `a.foo()` inside `A.foo()`
      on a receiver declared as `A`: the intended resolution finds
      `A.foo()`, and the code as written fails on the cast. */
  lemma VirtualCastFails()
    ensures var h := map["A" := ClassInfo(None, {"foo()"}, 0)];
            var caller := MethodId("A", "foo()");
            var call := InvokeExp(Virtual, MethodRef("A", "foo()", false), Some(Var(caller, "a", Reference("A"))), []);
            && WellFormed(h)
            && ResolveAsWritten(h, caller, call).Failure?
            && Resolve(h, caller, call) == {Some(MethodId("A", "foo()"))}
  {
    var h := map["A" := ClassInfo(None, {"foo()"}, 0)];
    assert DirectSubclasses(h, "A") == {};
    assert Dispatch(h, "A", "foo()") == Some(MethodId("A", "foo()"));
  }

  predicate IsCallSite(s: Stmt) {
    s.kind.Invoke?
  }

  /** `callSitesIn`: the calls among a method's statements. */
  function CallSitesIn(prog: Program, m: MethodId): seq<Stmt> {
    Filter(StmtsOf(prog, m), IsCallSite)
  }

  function ResolveSite(h: Hierarchy, site: Stmt): set<Option<MethodId>>
    requires WellFormed(h) && IsCallSite(site)
  {
    Resolve(h, site.container, site.kind.invokeExp)
  }

  datatype CallEdge = CallEdge(kind: CallKind, site: Stmt, callee: MethodId)

  datatype CallGraph = CallGraph(entry: MethodId, reachable: set<MethodId>, edges: set<CallEdge>)

  /** The edges a call site contributes: one per resolved method. */
  function SiteEdges(h: Hierarchy, site: Stmt): set<CallEdge>
    requires WellFormed(h) && IsCallSite(site)
  {
    set x | x in ResolveSite(h, site) && x.Some? :: CallEdge(site.kind.invokeExp.kind, site, x.value)
  }

  function EdgesOfSites(h: Hierarchy, sites: seq<Stmt>): set<CallEdge>
    requires WellFormed(h) && forall s :: s in sites ==> IsCallSite(s)
  {
    if sites == [] then {}
    else EdgesOfSites(h, sites[..|sites| - 1]) + SiteEdges(h, sites[|sites| - 1])
  }

  /** The edges out of method `m`. */
  function MethodEdges(prog: Program, h: Hierarchy, m: MethodId): set<CallEdge>
    requires WellFormed(h)
  {
    EdgesOfSites(h, CallSitesIn(prog, m))
  }

  lemma {:induction false} EdgesOfSitesMembers(h: Hierarchy, sites: seq<Stmt>)
    requires WellFormed(h) && forall s :: s in sites ==> IsCallSite(s)
    ensures forall e :: e in EdgesOfSites(h, sites) <==>
                          (e.site in sites && Some(e.callee) in ResolveSite(h, e.site) && e.kind == e.site.kind.invokeExp.kind)
  {
    if sites != [] {
      EdgesOfSitesMembers(h, sites[..|sites| - 1]);
      assert forall s :: s in sites <==> s in sites[..|sites| - 1] || s == sites[|sites| - 1];
    }
  }

  predicate HasFailedDispatch(prog: Program, h: Hierarchy, m: MethodId)
    requires WellFormed(h)
  {
    exists site :: site in CallSitesIn(prog, m) && None in ResolveSite(h, site)
  }

  function Callees(es: set<CallEdge>): set<MethodId> {
    set e | e in es :: e.callee
  }

  /** Every method the construction can meet: the entry, the containers of
      the program's statements, and the methods the hierarchy declares. */
  function Universe(prog: Program, h: Hierarchy, entry: MethodId): set<MethodId> {
    {entry}
    + (set m, s | m in prog.methods && s in prog.methods[m].stmts :: s.container)
    + (set c, sig | c in h && sig in h[c].declared :: MethodId(c, sig))
  }

  lemma CalleesInUniverse(prog: Program, h: Hierarchy, entry: MethodId, m: MethodId)
    requires WellFormed(h)
    ensures Callees(MethodEdges(prog, h, m)) <= Universe(prog, h, entry)
  {
    EdgesOfSitesMembers(h, CallSitesIn(prog, m));
    forall e | e in MethodEdges(prog, h, m) ensures e.callee in Universe(prog, h, entry) {
      assert e.site in StmtsOf(prog, m);
      if e.callee == e.site.container {
        assert m in prog.methods && e.site in prog.methods[m].stmts;
      } else {
        var c, sig := e.callee.declaringClass, e.callee.subsignature;
        assert c in h && sig in h[c].declared;
      }
    }
  }

  lemma SiteEdgesMembers(h: Hierarchy, site: Stmt)
    requires WellFormed(h) && IsCallSite(site)
    ensures forall e :: e in SiteEdges(h, site) <==>
                          (e.kind == site.kind.invokeExp.kind && e.site == site && Some(e.callee) in ResolveSite(h, site))
  {
    forall e: CallEdge | e.kind == site.kind.invokeExp.kind && e.site == site && Some(e.callee) in ResolveSite(h, site)
      ensures e in SiteEdges(h, site)
    {
      var x := Some(e.callee);
      assert e == CallEdge(site.kind.invokeExp.kind, site, x.value);
    }
  }

  /** The loop over the methods one call site resolves to: each becomes
      reachable, gets an edge from the site, and is queued. */
  method AddSiteEdges(h: Hierarchy, site: Stmt, reachable: set<MethodId>, edges: set<CallEdge>, queue: seq<MethodId>)
    returns (reachable': set<MethodId>, edges': set<CallEdge>, queue': seq<MethodId>)
    requires WellFormed(h) && IsCallSite(site) && None !in ResolveSite(h, site)
    ensures edges' == edges + SiteEdges(h, site)
    ensures reachable' == reachable + Callees(SiteEdges(h, site))
    ensures forall q :: q in queue' <==> q in queue || q in Callees(SiteEdges(h, site))
  {
    var callees := ResolveSite(h, site);
    var k := site.kind.invokeExp.kind;
    reachable', edges', queue' := reachable, edges, queue;
    var rest := callees;
    ghost var added: set<CallEdge> := {};
    while rest != {}
      invariant rest <= callees
      invariant forall e :: e in added <==> e.kind == k && e.site == site && Some(e.callee) in callees - rest
      invariant edges' == edges + added
      invariant reachable' == reachable + Callees(added)
      invariant forall q :: q in queue' <==> q in queue || q in Callees(added)
      decreases rest
    {
      var x :| x in rest;
      var e := CallEdge(k, site, x.value);
      assert Callees(added + {e}) == Callees(added) + {x.value};
      reachable' := reachable' + {x.value};
      edges' := edges' + {e};
      queue' := queue' + [x.value];
      added := added + {e};
      rest := rest - {x};
    }
    SiteEdgesMembers(h, site);
    assert added == SiteEdges(h, site);
  }

  lemma CalleesUnion(a: set<CallEdge>, b: set<CallEdge>)
    ensures Callees(a + b) == Callees(a) + Callees(b)
  {
  }

  /** The loop over the call sites of `cur`, for a method without failed
      dispatches. */
  method ProcessSites(prog: Program, h: Hierarchy, cur: MethodId, reachable: set<MethodId>,
                      edges: set<CallEdge>, queue: seq<MethodId>)
    returns (reachable': set<MethodId>, edges': set<CallEdge>, queue': seq<MethodId>)
    requires WellFormed(h) && !HasFailedDispatch(prog, h, cur)
    ensures edges' == edges + MethodEdges(prog, h, cur)
    ensures reachable' == reachable + Callees(MethodEdges(prog, h, cur))
    ensures forall q :: q in queue' <==> q in queue || q in Callees(MethodEdges(prog, h, cur))
  {
    var sites := CallSitesIn(prog, cur);
    reachable', edges', queue' := reachable, edges, queue;
    var i := 0;
    ghost var done: set<CallEdge> := {};
    while i < |sites|
      invariant 0 <= i <= |sites|
      invariant done == EdgesOfSites(h, sites[..i])
      invariant edges' == edges + done
      invariant reachable' == reachable + Callees(done)
      invariant forall q :: q in queue' <==> q in queue || q in Callees(done)
    {
      var site := sites[i];
      assert site in sites && None !in ResolveSite(h, site);
      reachable', edges', queue' := AddSiteEdges(h, site, reachable', edges', queue');
      SitesStep(h, sites, i);
      CalleesUnion(done, SiteEdges(h, site));
      done := done + SiteEdges(h, site);
      i := i + 1;
    }
    assert sites[..i] == sites;
  }

  lemma SitesStep(h: Hierarchy, sites: seq<Stmt>, i: nat)
    requires WellFormed(h) && i < |sites| && forall s :: s in sites ==> IsCallSite(s)
    ensures EdgesOfSites(h, sites[..i + 1]) == EdgesOfSites(h, sites[..i]) + SiteEdges(h, sites[i])
  {
    assert sites[..i + 1][..i] == sites[..i];
  }

  /** Every processed method after the first is the callee of an edge, out
      of a method processed before it, among the edges `E` gives. */
  ghost predicate JustifiedBy(E: MethodId -> set<CallEdge>, order: seq<MethodId>) {
    forall i :: 0 < i < |order| ==> CalledEarlier(E, order, i)
  }

  /** `order[i]` is a callee of a method listed before it. */
  ghost predicate CalledEarlier(E: MethodId -> set<CallEdge>, order: seq<MethodId>, i: nat)
    requires i < |order|
  {
    exists j :: 0 <= j < i && order[i] in Callees(E(order[j]))
  }

  lemma JustifiedExtend(E: MethodId -> set<CallEdge>, order: seq<MethodId>, m: MethodId, j: nat)
    requires JustifiedBy(E, order)
    requires j < |order| && m in Callees(E(order[j]))
    ensures JustifiedBy(E, order + [m])
  {
    var o := order + [m];
    forall i | 0 < i < |o| ensures CalledEarlier(E, o, i) {
      if i < |order| {
        assert CalledEarlier(E, order, i);
        var k :| 0 <= k < i && order[i] in Callees(E(order[k]));
        assert o[k] == order[k] && o[i] == order[i];
      } else {
        assert o[j] == order[j] && o[i] == m;
      }
    }
  }

  predicate Distinct(s: seq<MethodId>) {
    forall i, j :: 0 <= i < j < |s| ==> s[i] != s[j]
  }

  /** The state of the traversal: the call graph built so far, the queue, the
      visited set, and the visited methods in processing order. */
  datatype Bfs = Bfs(reachable: set<MethodId>, edges: set<CallEdge>, queue: seq<MethodId>,
                     visited: set<MethodId>, order: seq<MethodId>)

  /** `e` is an edge out of one of the methods `ms`. */
  ghost predicate EdgeOutOf(E: MethodId -> set<CallEdge>, ms: set<MethodId>, e: CallEdge) {
    exists m :: m in ms && e in E(m)
  }

  /** What holds between iterations of the traversal, for the edges `E` out
      of each method and the methods `F` that fail: the edges are exactly
      those out of visited methods, the reachable methods are exactly their
      callees (the entry is recorded as the entry method only), every queued
      or visited method is the entry or reachable, and every reachable
      method is visited or still queued. */
  ghost predicate BfsInv(E: MethodId -> set<CallEdge>, F: MethodId -> bool, entry: MethodId, b: Bfs) {
    && b.visited == (set m | m in b.order)
    && Distinct(b.order)
    && (|b.order| > 0 ==> b.order[0] == entry)
    && (|b.order| == 0 ==> b.queue == [entry] && b.reachable == {} && b.edges == {})
    && JustifiedBy(E, b.order)
    && b.reachable == Callees(b.edges)
    && (forall e :: e in b.edges <==> EdgeOutOf(E, b.visited, e))
    && (forall m :: m in b.visited ==> !F(m))
    && (forall q :: q in b.queue ==> q in b.reachable || q == entry)
    && b.visited <= b.reachable + {entry}
    && b.reachable <= b.visited + (set q | q in b.queue)
  }

  lemma InitInv(E: MethodId -> set<CallEdge>, F: MethodId -> bool, entry: MethodId)
    ensures BfsInv(E, F, entry, Bfs({}, {}, [entry], {}, []))
  {
  }

  lemma SkipInv(E: MethodId -> set<CallEdge>, F: MethodId -> bool, entry: MethodId, b: Bfs)
    requires BfsInv(E, F, entry, b)
    requires b.queue != [] && b.queue[0] in b.visited
    ensures BfsInv(E, F, entry, b.(queue := b.queue[1..]))
  {
    forall q | q in b.reachable ensures q in b.visited || q in b.queue[1..] {
      if q !in b.visited {
        var i :| 0 <= i < |b.queue| && b.queue[i] == q;
        assert b.queue[1..][i - 1] == q;
      }
    }
  }

  /** The method polled next is justified by an edge out of a visited one. */
  lemma PollJustified(E: MethodId -> set<CallEdge>, F: MethodId -> bool, entry: MethodId, b: Bfs)
    requires BfsInv(E, F, entry, b)
    requires b.queue != [] && b.queue[0] !in b.visited
    ensures JustifiedBy(E, b.order + [b.queue[0]])
    ensures Distinct(b.order + [b.queue[0]])
    ensures (b.order + [b.queue[0]])[0] == entry
  {
    var cur := b.queue[0];
    if |b.order| > 0 {
      assert entry in b.visited by {
        assert b.order[0] in b.visited;
      }
      assert cur in b.queue && cur != entry;
      assert cur in Callees(b.edges);
      var e :| e in b.edges && e.callee == cur;
      assert EdgeOutOf(E, b.visited, e);
      var m :| m in b.visited && e in E(m);
      var j :| 0 <= j < |b.order| && b.order[j] == m;
      JustifiedExtend(E, b.order, cur, j);
    } else {
      assert cur == entry;
    }
    assert forall i :: 0 <= i < |b.order| ==> b.order[i] in b.visited;
  }

  lemma VisitInv(E: MethodId -> set<CallEdge>, F: MethodId -> bool, entry: MethodId, b: Bfs,
                 reachable': set<MethodId>, edges': set<CallEdge>, queue': seq<MethodId>)
    requires BfsInv(E, F, entry, b)
    requires b.queue != [] && b.queue[0] !in b.visited && !F(b.queue[0])
    requires edges' == b.edges + E(b.queue[0])
    requires reachable' == b.reachable + Callees(E(b.queue[0]))
    requires forall q :: q in queue' <==> q in b.queue[1..] || q in Callees(E(b.queue[0]))
    ensures BfsInv(E, F, entry, Bfs(reachable', edges', queue', b.visited + {b.queue[0]}, b.order + [b.queue[0]]))
  {
    var cur := b.queue[0];
    var b' := Bfs(reachable', edges', queue', b.visited + {cur}, b.order + [cur]);
    PollJustified(E, F, entry, b);
    CalleesUnion(b.edges, E(cur));
    assert b'.visited == (set m | m in b'.order);
    forall q | q in b'.reachable ensures q in b'.visited || q in b'.queue {
      if q in b.reachable && q != cur && q !in b.visited {
        var i :| 0 <= i < |b.queue| && b.queue[i] == q;
        assert b.queue[1..][i - 1] == q;
      }
    }
  }

  /** When the queue is empty the processed methods are the entry and the
      reachable methods, the reachable methods are exactly the callees of
      the edges, and the graph is closed under `E`. */
  lemma FinalInv(E: MethodId -> set<CallEdge>, F: MethodId -> bool, entry: MethodId, b: Bfs)
    requires BfsInv(E, F, entry, b) && b.queue == [] && b.order != []
    ensures (set m | m in b.order) == {entry} + b.reachable
    ensures b.reachable == Callees(b.edges)
    ensures forall m, e :: (m == entry || m in b.reachable) && e in E(m) ==> e in b.edges && e.callee in b.reachable
    ensures forall e :: e in b.edges ==> EdgeOutOf(E, {entry} + b.reachable, e)
  {
    assert entry in b.visited by {
      assert b.order[0] in b.visited;
    }
  }

  /** The edges out of each method, as a function. */
  ghost function EdgesFn(prog: Program, h: Hierarchy): MethodId -> set<CallEdge>
    requires WellFormed(h)
  {
    m => MethodEdges(prog, h, m)
  }

  /** Every processed method after the first is the callee of an edge out of
      a method processed before it. */
  ghost predicate Justified(prog: Program, h: Hierarchy, order: seq<MethodId>)
    requires WellFormed(h)
  {
    JustifiedBy(EdgesFn(prog, h), order)
  }

  ghost function FailsFn(prog: Program, h: Hierarchy): MethodId -> bool
    requires WellFormed(h)
  {
    m => HasFailedDispatch(prog, h, m)
  }

  /** Visiting a method of the universe not yet visited shrinks the set of
      methods left to visit. */
  lemma VisitShrinks(U: set<MethodId>, visited: set<MethodId>, cur: MethodId)
    requires cur in U && cur !in visited
    ensures |U - (visited + {cur})| < |U - visited|
  {
    var rest := U - (visited + {cur});
    assert U - visited == rest + {cur} && cur !in rest;
  }

  /** One iteration of the traversal: poll the queue head and skip it if
      visited, stop on a failed dispatch, or process its call sites. */
  method Poll(prog: Program, h: Hierarchy, entry: MethodId, b: Bfs, ghost U: set<MethodId>)
    returns (b': Bfs, failed: bool)
    requires WellFormed(h) && b.queue != [] && b.reachable <= U && entry in U
    requires Callees(EdgesFn(prog, h)(b.queue[0])) <= U
    requires BfsInv(EdgesFn(prog, h), FailsFn(prog, h), entry, b)
    ensures failed ==> b'.order == b.order + [b.queue[0]] && HasFailedDispatch(prog, h, b.queue[0])
    ensures failed ==> Distinct(b'.order) && b'.order[0] == entry && JustifiedBy(EdgesFn(prog, h), b'.order)
    ensures !failed ==> BfsInv(EdgesFn(prog, h), FailsFn(prog, h), entry, b') && b'.reachable <= U
    ensures !failed ==> |U - b'.visited| < |U - b.visited|
                        || (|U - b'.visited| == |U - b.visited| && |b'.queue| < |b.queue|)
  {
    ghost var E := EdgesFn(prog, h);
    ghost var F := FailsFn(prog, h);
    var cur := b.queue[0];
    if cur in b.visited {
      SkipInv(E, F, entry, b);
      b' := b.(queue := b.queue[1..]);
      failed := false;
    } else if HasFailedDispatch(prog, h, cur) {
      PollJustified(E, F, entry, b);
      b' := b.(order := b.order + [cur]);
      failed := true;
    } else {
      var reachable', edges', queue' := ProcessSites(prog, h, cur, b.reachable, b.edges, b.queue[1..]);
      VisitInv(E, F, entry, b, reachable', edges', queue');
      assert cur in b.queue;
      VisitShrinks(U, b.visited, cur);
      b' := Bfs(reachable', edges', queue', b.visited + {cur}, b.order + [cur]);
      failed := false;
    }
  }

  /** `buildCallGraph`: a breadth-first traversal from `entry` that processes
      each polled method once, using a visited set. Fails when a processed
      method has a call site with a failed dispatch. `order` lists the methods
      in the order they were processed. */
  method BuildCallGraph(prog: Program, h: Hierarchy, entry: MethodId)
    returns (r: Result<CallGraph, MethodId>, order: seq<MethodId>)
    requires WellFormed(h)
    ensures Distinct(order)
    ensures |order| > 0 && order[0] == entry
    ensures Justified(prog, h, order)
    ensures r.Failure? ==> r.error in order && HasFailedDispatch(prog, h, r.error)
    ensures r.Success? ==> r.value.entry == entry && (set m | m in order) == {entry} + r.value.reachable
    ensures r.Success? ==> r.value.reachable == Callees(r.value.edges)
    ensures r.Success? ==> forall m :: m in order ==> !HasFailedDispatch(prog, h, m)
    ensures r.Success? ==> forall m, e :: (m == entry || m in r.value.reachable) && e in MethodEdges(prog, h, m) ==>
                             e in r.value.edges && e.callee in r.value.reachable
    ensures r.Success? ==> forall e :: e in r.value.edges ==> EdgeOutOf(EdgesFn(prog, h), {entry} + r.value.reachable, e)
  {
    var b := Bfs({}, {}, [entry], {}, []);
    InitInv(EdgesFn(prog, h), FailsFn(prog, h), entry);
    ghost var U := Universe(prog, h, entry);
    while b.queue != []
      invariant BfsInv(EdgesFn(prog, h), FailsFn(prog, h), entry, b)
      invariant b.reachable <= U && entry in U
      decreases |U - b.visited|, |b.queue|
    {
      CalleesInUniverse(prog, h, entry, b.queue[0]);
      var b', failed := Poll(prog, h, entry, b, U);
      if failed {
        order := b'.order;
        r := Failure(b.queue[0]);
        return;
      }
      b := b';
    }
    FinalGraph(prog, h, entry, b);
    order := b.order;
    r := Success(CallGraph(entry, b.reachable, b.edges));
  }

  /** The traversal state at an empty queue, read back in terms of the program. */
  lemma FinalGraph(prog: Program, h: Hierarchy, entry: MethodId, b: Bfs)
    requires WellFormed(h) && b.queue == []
    requires BfsInv(EdgesFn(prog, h), FailsFn(prog, h), entry, b)
    ensures b.order != [] && b.order[0] == entry && Distinct(b.order)
    ensures Justified(prog, h, b.order)
    ensures (set m | m in b.order) == {entry} + b.reachable
    ensures b.reachable == Callees(b.edges)
    ensures forall m :: m in b.order ==> !HasFailedDispatch(prog, h, m)
    ensures forall m, e :: (m == entry || m in b.reachable) && e in MethodEdges(prog, h, m) ==> e in b.edges && e.callee in b.reachable
    ensures forall e :: e in b.edges ==> EdgeOutOf(EdgesFn(prog, h), {entry} + b.reachable, e)
  {
    ghost var E := EdgesFn(prog, h);
    ghost var F := FailsFn(prog, h);
    assert b.order != [];
    FinalInv(E, F, entry, b);
    assert forall m :: m in b.order ==> !F(m);
    assert forall m :: m in b.order ==> !HasFailedDispatch(prog, h, m);
  }
}
