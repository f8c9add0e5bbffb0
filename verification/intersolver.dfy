/** The inter-procedural dataflow solver: every ICFG node starts from the
    analysis's initial fact, then round-robin passes visit each node in
    ICFG order, meeting the facts its in-edges carry from its predecessors
    into its IN fact and transferring it, until a pass in which no node
    reports a change. The analysis may carry state of its own that the
    transfers update (the constant propagation's side tables). */
module InterSolver {

  /** The ICFG as the solver reads it: the entry nodes of the entry methods,
      the nodes in iteration order, each node's predecessors and in-edges,
      and each edge's source. */
  datatype Icfg<!N, !E> = Icfg(entries: seq<N>, nodes: seq<N>, preds: N -> seq<N>, inEdges: N -> seq<E>, source: E -> N)

  /** An inter-procedural analysis: `meetInto(fact, target)` is the new
      target, `transferEdge(s, e, out)` the fact `e` carries, and
      `transferNode(s, n, in, out)` the change flag and the new OUT fact;
      both transfers also return the analysis state. */
  datatype Analysis<!N, !E, !F, !S> = Analysis(
    initial: F,
    meetInto: (F, F) -> F,
    transferEdge: (S, E, F) -> (F, S),
    transferNode: (S, N, F, F) -> (bool, F, S))

  datatype Results<N, F, S> = Results(inFacts: map<N, F>, outFacts: map<N, F>, state: S)

  /** Every predecessor of a node is a node. */
  ghost predicate WellFormed<N(!new), E(!new)>(g: Icfg<N, E>) {
    forall n, p :: n in g.nodes && p in g.preds(n) ==> p in g.nodes
  }

  /** Every node has an IN and an OUT fact. */
  ghost predicate Covers<N(!new), E(!new), F(!new), S(!new)>(g: Icfg<N, E>, r: Results<N, F, S>) {
    forall n :: n in g.nodes ==> n in r.inFacts && n in r.outFacts
  }

  /** The node transfer reports a change exactly when OUT changes. */
  ghost predicate Reports<N(!new), E(!new), F(!new), S(!new)>(a: Analysis<N, E, F, S>) {
    forall s, n, i, o :: a.transferNode(s, n, i, o).0 <==> a.transferNode(s, n, i, o).1 != o
  }

  /** `meetInto` only lowers its target in the preorder `leq`. */
  ghost predicate MeetLowers<N(!new), E(!new), F(!new), S(!new)>(a: Analysis<N, E, F, S>, leq: (F, F) -> bool) {
    && (forall x :: leq(x, x))
    && (forall x, y, z :: leq(x, y) && leq(y, z) ==> leq(x, z))
    && (forall f, t :: leq(a.meetInto(f, t), t))
  }

  predicate Distinct<N(==)>(s: seq<N>) {
    forall i, j :: 0 <= i < j < |s| ==> s[i] != s[j]
  }

  /** `initialize`: the entry nodes of the entry methods, then every node,
      get fresh initial IN and OUT facts. */
  method Initialize<N(==,!new), E(!new), F(==,!new), S(!new)>(a: Analysis<N, E, F, S>, g: Icfg<N, E>, state: S) returns (r: Results<N, F, S>)
    ensures Covers(g, r)
    ensures forall n :: n in r.inFacts <==> n in g.entries || n in g.nodes
    ensures forall n :: n in r.outFacts <==> n in g.entries || n in g.nodes
    ensures forall n :: n in r.inFacts ==> r.inFacts[n] == a.initial && r.outFacts[n] == a.initial
    ensures r.state == state
  {
    r := Results(map[], map[], state);
    var i := 0;
    while i < |g.entries|
      invariant 0 <= i <= |g.entries|
      invariant forall n :: n in r.inFacts <==> n in g.entries[..i]
      invariant forall n :: n in r.outFacts <==> n in g.entries[..i]
      invariant forall n :: n in r.inFacts ==> r.inFacts[n] == a.initial && r.outFacts[n] == a.initial
      invariant r.state == state
    {
      var entry := g.entries[i];
      r := r.(inFacts := r.inFacts[entry := a.initial], outFacts := r.outFacts[entry := a.initial]);
      assert g.entries[..i + 1] == g.entries[..i] + [entry];
      i := i + 1;
    }
    assert g.entries[..i] == g.entries;
    var j := 0;
    while j < |g.nodes|
      invariant 0 <= j <= |g.nodes|
      invariant forall n :: n in r.inFacts <==> n in g.entries || n in g.nodes[..j]
      invariant forall n :: n in r.outFacts <==> n in g.entries || n in g.nodes[..j]
      invariant forall n :: n in r.inFacts ==> r.inFacts[n] == a.initial && r.outFacts[n] == a.initial
      invariant r.state == state
    {
      var node := g.nodes[j];
      r := r.(inFacts := r.inFacts[node := a.initial], outFacts := r.outFacts[node := a.initial]);
      assert g.nodes[..j + 1] == g.nodes[..j] + [node];
      j := j + 1;
    }
    assert g.nodes[..j] == g.nodes;
  }

  /** The loop over the in-edges of a node for one predecessor `pre`: each
      edge leaving `pre` carries `out` (the OUT fact of `pre`), and what it
      carries is met into the IN fact. */
  function MeetEdgesFrom<N(==,!new), E(!new), F(==,!new), S(!new)>(a: Analysis<N, E, F, S>, g: Icfg<N, E>, pre: N, edges: seq<E>, out: F, inFact: F, s: S): (F, S)
  {
    if edges == [] then (inFact, s)
    else if g.source(edges[0]) == pre then
      var (tmp, s1) := a.transferEdge(s, edges[0], out);
      MeetEdgesFrom(a, g, pre, edges[1..], out, a.meetInto(tmp, inFact), s1)
    else MeetEdgesFrom(a, g, pre, edges[1..], out, inFact, s)
  }

  /** The loop over the predecessors of `n`. */
  function MeetPreds<N(==,!new), E(!new), F(==,!new), S(!new)>(a: Analysis<N, E, F, S>, g: Icfg<N, E>, n: N, pres: seq<N>, outs: map<N, F>, inFact: F, s: S): (F, S)
    requires forall p :: p in pres ==> p in outs
  {
    if pres == [] then (inFact, s)
    else
      var (f1, s1) := MeetEdgesFrom(a, g, pres[0], g.inEdges(n), outs[pres[0]], inFact, s);
      MeetPreds(a, g, n, pres[1..], outs, f1, s1)
  }

  /** One node's visit: meet the in-edges into IN, then transfer. */
  function VisitNode<N(==,!new), E(!new), F(==,!new), S(!new)>(a: Analysis<N, E, F, S>, g: Icfg<N, E>, n: N, r: Results<N, F, S>): (Results<N, F, S>, bool)
    requires WellFormed(g) && Covers(g, r) && n in g.nodes
  {
    var (inFact, s1) := MeetPreds(a, g, n, g.preds(n), r.outFacts, r.inFacts[n], r.state);
    var (changed, outFact, s2) := a.transferNode(s1, n, inFact, r.outFacts[n]);
    (Results(r.inFacts[n := inFact], r.outFacts[n := outFact], s2), changed)
  }

  /** One round-robin pass over `nodes`; reports whether any node's
      transfer reported a change. Only the visited nodes' facts change. */
  function Pass<N(==,!new), E(!new), F(==,!new), S(!new)>(a: Analysis<N, E, F, S>, g: Icfg<N, E>, nodes: seq<N>, r: Results<N, F, S>): (res: (Results<N, F, S>, bool))
    requires WellFormed(g) && Covers(g, r)
    requires forall n :: n in nodes ==> n in g.nodes
    ensures Covers(g, res.0)
    ensures res.0.inFacts.Keys == r.inFacts.Keys && res.0.outFacts.Keys == r.outFacts.Keys
    ensures forall n :: n in r.inFacts && n !in nodes ==> res.0.inFacts[n] == r.inFacts[n]
    ensures forall n :: n in r.outFacts && n !in nodes ==> res.0.outFacts[n] == r.outFacts[n]
    decreases |nodes|
  {
    if nodes == [] then (r, false)
    else
      var (r1, c1) := VisitNode(a, g, nodes[0], r);
      assert forall n :: n in nodes[1..] ==> n in nodes;
      var (r2, c2) := Pass(a, g, nodes[1..], r1);
      (r2, c1 || c2)
  }

  /** A node's visit changes only that node's facts, and with a faithful
      transfer it reports a change exactly when the node's OUT changes. */
  lemma VisitNodeReports<N(!new), E(!new), F(!new), S(!new)>(a: Analysis<N, E, F, S>, g: Icfg<N, E>, n: N, r: Results<N, F, S>)
    requires WellFormed(g) && Covers(g, r) && n in g.nodes
    ensures forall m :: m in r.outFacts && m != n ==> VisitNode(a, g, n, r).0.outFacts[m] == r.outFacts[m]
    ensures Reports(a) ==> (VisitNode(a, g, n, r).1 <==> VisitNode(a, g, n, r).0.outFacts[n] != r.outFacts[n])
  {
    var (inFact, s1) := MeetPreds(a, g, n, g.preds(n), r.outFacts, r.inFacts[n], r.state);
    var t := a.transferNode(s1, n, inFact, r.outFacts[n]);
    assert VisitNode(a, g, n, r).1 == t.0 && VisitNode(a, g, n, r).0.outFacts[n] == t.1;
  }

  /** When the node transfer reports faithfully and no node is visited
      twice, a pass reports a change exactly when some visited node's OUT
      fact differs afterwards. */
  lemma {:induction false} PassReportsChange<N(!new), E(!new), F(!new), S(!new)>(a: Analysis<N, E, F, S>, g: Icfg<N, E>, nodes: seq<N>, r: Results<N, F, S>)
    requires WellFormed(g) && Covers(g, r)
    requires forall n :: n in nodes ==> n in g.nodes
    requires Reports(a) && Distinct(nodes)
    ensures Pass(a, g, nodes, r).1 <==> exists n :: n in nodes && Pass(a, g, nodes, r).0.outFacts[n] != r.outFacts[n]
    decreases |nodes|
  {
    if nodes != [] {
      var n0 := nodes[0];
      var v := VisitNode(a, g, n0, r);
      var r1, c1 := v.0, v.1;
      var rest := nodes[1..];
      assert forall n :: n in rest ==> n in nodes;
      assert Distinct(rest) && n0 !in rest;
      var p := Pass(a, g, rest, r1);
      var r2, c2 := p.0, p.1;
      assert Pass(a, g, nodes, r) == (r2, c1 || c2);
      VisitNodeReports(a, g, n0, r);
      PassReportsChange(a, g, rest, r1);
      assert r2.outFacts[n0] == r1.outFacts[n0];
      if c2 {
        var m :| m in rest && r2.outFacts[m] != r1.outFacts[m];
        assert m in nodes && r2.outFacts[m] != r.outFacts[m];
      } else if !c1 {
        forall n | n in nodes ensures r2.outFacts[n] == r.outFacts[n] {
          if n != n0 {
            assert n in rest;
          }
        }
      }
    }
  }

  /** The meets of one predecessor's edges only lower the IN fact. */
  lemma {:induction false} MeetEdgesFromLowers<N(!new), E(!new), F(!new), S(!new)>(a: Analysis<N, E, F, S>, leq: (F, F) -> bool, g: Icfg<N, E>, pre: N, edges: seq<E>, out: F, inFact: F, s: S)
    requires MeetLowers(a, leq)
    ensures leq(MeetEdgesFrom(a, g, pre, edges, out, inFact, s).0, inFact)
    decreases |edges|
  {
    if edges != [] {
      if g.source(edges[0]) == pre {
        var (tmp, s1) := a.transferEdge(s, edges[0], out);
        MeetEdgesFromLowers(a, leq, g, pre, edges[1..], out, a.meetInto(tmp, inFact), s1);
      } else {
        MeetEdgesFromLowers(a, leq, g, pre, edges[1..], out, inFact, s);
      }
    }
  }

  lemma {:induction false} MeetPredsLowers<N(!new), E(!new), F(!new), S(!new)>(a: Analysis<N, E, F, S>, leq: (F, F) -> bool, g: Icfg<N, E>, n: N, pres: seq<N>, outs: map<N, F>, inFact: F, s: S)
    requires MeetLowers(a, leq)
    requires forall p :: p in pres ==> p in outs
    ensures leq(MeetPreds(a, g, n, pres, outs, inFact, s).0, inFact)
    decreases |pres|
  {
    if pres != [] {
      var (f1, s1) := MeetEdgesFrom(a, g, pres[0], g.inEdges(n), outs[pres[0]], inFact, s);
      MeetEdgesFromLowers(a, leq, g, pres[0], g.inEdges(n), outs[pres[0]], inFact, s);
      MeetPredsLowers(a, leq, g, n, pres[1..], outs, f1, s1);
    }
  }

  /** With a meet that only lowers its target, a pass only lowers IN
      facts. */
  lemma {:induction false} PassLowersIn<N(!new), E(!new), F(!new), S(!new)>(a: Analysis<N, E, F, S>, leq: (F, F) -> bool, g: Icfg<N, E>, nodes: seq<N>, r: Results<N, F, S>)
    requires MeetLowers(a, leq)
    requires WellFormed(g) && Covers(g, r)
    requires forall n :: n in nodes ==> n in g.nodes
    ensures forall n :: n in r.inFacts ==> leq(Pass(a, g, nodes, r).0.inFacts[n], r.inFacts[n])
    decreases |nodes|
  {
    if nodes != [] {
      var n0 := nodes[0];
      MeetPredsLowers(a, leq, g, n0, g.preds(n0), r.outFacts, r.inFacts[n0], r.state);
      var (r1, c1) := VisitNode(a, g, n0, r);
      assert forall n :: n in nodes[1..] ==> n in nodes;
      PassLowersIn(a, leq, g, nodes[1..], r1);
    }
  }

  /** `doSolve`: passes over the nodes in ICFG order until one reports no
      change, or until `fuel` passes have run. When it ends done, `last` is
      the results the final, unchanging pass started from. */
  method DoSolve<N(==,!new), E(!new), F(==,!new), S(!new)>(a: Analysis<N, E, F, S>, g: Icfg<N, E>, r0: Results<N, F, S>, fuel: nat)
    returns (r: Results<N, F, S>, done: bool, last: Results<N, F, S>)
    requires WellFormed(g) && Covers(g, r0)
    ensures Covers(g, r)
    ensures r.inFacts.Keys == r0.inFacts.Keys && r.outFacts.Keys == r0.outFacts.Keys
    ensures done ==> Covers(g, last) && Pass(a, g, g.nodes, last) == (r, false)
    ensures done && Reports(a) && Distinct(g.nodes) ==> forall n :: n in last.outFacts ==> r.outFacts[n] == last.outFacts[n]
  {
    r := r0;
    last := r0;
    done := false;
    var number := 0;
    while number < fuel
      invariant Covers(g, r)
      invariant r.inFacts.Keys == r0.inFacts.Keys && r.outFacts.Keys == r0.outFacts.Keys
    {
      var (next, changed) := Pass(a, g, g.nodes, r);
      last := r;
      r := next;
      if !changed {
        done := true;
        if Reports(a) && Distinct(g.nodes) {
          PassReportsChange(a, g, g.nodes, last);
        }
        return;
      }
      number := number + 1;
    }
  }

  /** `solve`: initialize, then iterate. When it ends done, `last` is the
      results the final pass started from: that pass produced `r` and
      reported no change, and with a faithful node transfer it left every
      OUT fact as it was. */
  method Solve<N(==,!new), E(!new), F(==,!new), S(!new)>(a: Analysis<N, E, F, S>, g: Icfg<N, E>, state: S, fuel: nat)
    returns (r: Results<N, F, S>, done: bool, last: Results<N, F, S>)
    requires WellFormed(g)
    ensures Covers(g, r)
    ensures forall n :: n in r.inFacts <==> n in g.entries || n in g.nodes
    ensures forall n :: n in r.outFacts <==> n in g.entries || n in g.nodes
    ensures done ==> Covers(g, last) && Pass(a, g, g.nodes, last) == (r, false)
    ensures done && Reports(a) && Distinct(g.nodes) ==> forall n :: n in last.outFacts ==> r.outFacts[n] == last.outFacts[n]
  {
    var init := Initialize(a, g, state);
    r, done, last := DoSolve(a, g, init, fuel);
  }
}
