/** The round-robin iterative solver for intraprocedural analyses. Only
    the backward direction is supported: each pass visits the CFG nodes in
    order, meets the IN facts of a node's successors into its OUT fact and,
    except at the exit node, transfers OUT to IN; it stops after a pass in
    which no transfer reports a change. The forward direction refuses to
    run. */
module IterativeSolver {
  import opened Wrappers

  /** The CFG as the solver reads it: the exit node, the nodes in iteration
      order and each node's successors. */
  datatype Cfg<!N> = Cfg(exit: N, nodes: seq<N>, succs: N -> seq<N>)

  /** A backward analysis: `meetInto(fact, target)` is the new target;
      `transferNode(n, in, out)` is the change flag and the new IN fact. */
  datatype Analysis<!N, !F> = Analysis(meetInto: (F, F) -> F, transferNode: (N, F, F) -> (bool, F))

  datatype Results<N, F> = Results(inFacts: map<N, F>, outFacts: map<N, F>)

  /** Successors are nodes, and the exit node has none. */
  ghost predicate WellFormed<N(!new)>(g: Cfg<N>) {
    && (forall n, m :: n in g.nodes && m in g.succs(n) ==> m in g.nodes)
    && g.succs(g.exit) == []
  }

  /** What the backward initialization provides: an IN fact for every node
      and an OUT fact for every node but the exit. */
  ghost predicate Covers<N(!new), F(!new)>(g: Cfg<N>, r: Results<N, F>) {
    forall n :: n in g.nodes ==> n in r.inFacts && (n != g.exit ==> n in r.outFacts)
  }

  /** The node transfer reports a change exactly when IN changes. */
  ghost predicate Reports<N(!new), F(!new)>(a: Analysis<N, F>) {
    forall n, i, o :: a.transferNode(n, i, o).0 <==> a.transferNode(n, i, o).1 != i
  }

  /** `meetInto` yields a lower bound of both its arguments in the preorder
      `leq`. */
  ghost predicate MeetBelow<N(!new), F(!new)>(a: Analysis<N, F>, leq: (F, F) -> bool) {
    && (forall x :: leq(x, x))
    && (forall x, y, z :: leq(x, y) && leq(y, z) ==> leq(x, z))
    && (forall f, t :: leq(a.meetInto(f, t), t) && leq(a.meetInto(f, t), f))
  }

  predicate Distinct<N(==)>(s: seq<N>) {
    forall i, j :: 0 <= i < j < |s| ==> s[i] != s[j]
  }

  /** `doSolveForward`: this solver does not support forward analyses. */
  function DoSolveForward<N, F>(g: Cfg<N>, r: Results<N, F>): (res: Result<Results<N, F>, string>)
    ensures res.Failure?
  {
    Failure("UnsupportedOperationException")
  }

  /** The meets of the successors' IN facts into a node's OUT fact, in
      successor order. */
  function MeetSuccs<N(==), F>(a: Analysis<N, F>, succs: seq<N>, ins: map<N, F>, out: F): F
    requires forall m :: m in succs ==> m in ins
  {
    if succs == [] then out else MeetSuccs(a, succs[1..], ins, a.meetInto(ins[succs[0]], out))
  }

  /** One node's visit: the exit node is left alone; any other node meets
      its successors' IN facts into OUT and transfers OUT to IN. */
  function VisitNode<N(==,!new), F(!new)>(a: Analysis<N, F>, g: Cfg<N>, n: N, r: Results<N, F>): (Results<N, F>, bool)
    requires WellFormed(g) && Covers(g, r) && n in g.nodes
  {
    if n == g.exit then (r, false)
    else
      var out := MeetSuccs(a, g.succs(n), r.inFacts, r.outFacts[n]);
      var (changed, inFact) := a.transferNode(n, r.inFacts[n], out);
      (Results(r.inFacts[n := inFact], r.outFacts[n := out]), changed)
  }

  /** One pass over `nodes`. Only the visited nodes' facts change, and the
      exit node's facts never do. */
  function Pass<N(==,!new), F(!new)>(a: Analysis<N, F>, g: Cfg<N>, nodes: seq<N>, r: Results<N, F>): (res: (Results<N, F>, bool))
    requires WellFormed(g) && Covers(g, r)
    requires forall n :: n in nodes ==> n in g.nodes
    ensures Covers(g, res.0)
    ensures res.0.inFacts.Keys == r.inFacts.Keys && res.0.outFacts.Keys == r.outFacts.Keys
    ensures forall n :: n in r.inFacts && (n !in nodes || n == g.exit) ==> res.0.inFacts[n] == r.inFacts[n]
    ensures forall n :: n in r.outFacts && (n !in nodes || n == g.exit) ==> res.0.outFacts[n] == r.outFacts[n]
    decreases |nodes|
  {
    if nodes == [] then (r, false)
    else
      var (r1, c1) := VisitNode(a, g, nodes[0], r);
      assert forall n :: n in nodes[1..] ==> n in nodes;
      var (r2, c2) := Pass(a, g, nodes[1..], r1);
      (r2, c1 || c2)
  }

  /** After the meets, OUT lies below every successor's IN fact and below
      the old OUT. */
  lemma {:induction false} MeetSuccsBelow<N(!new), F(!new)>(a: Analysis<N, F>, leq: (F, F) -> bool, succs: seq<N>, ins: map<N, F>, out: F)
    requires MeetBelow(a, leq)
    requires forall m :: m in succs ==> m in ins
    ensures leq(MeetSuccs(a, succs, ins, out), out)
    ensures forall m :: m in succs ==> leq(MeetSuccs(a, succs, ins, out), ins[m])
    decreases |succs|
  {
    if succs != [] {
      var next := a.meetInto(ins[succs[0]], out);
      assert forall m :: m in succs[1..] ==> m in succs;
      MeetSuccsBelow(a, leq, succs[1..], ins, next);
      forall m | m in succs ensures leq(MeetSuccs(a, succs, ins, out), ins[m]) {
        if m != succs[0] {
          assert m in succs[1..];
        }
      }
    }
  }

  /** A visited node other than the exit ends its visit with an OUT fact
      below every successor's IN fact as the visit read it. */
  lemma VisitNodeBelowSuccs<N(!new), F(!new)>(a: Analysis<N, F>, leq: (F, F) -> bool, g: Cfg<N>, n: N, r: Results<N, F>)
    requires MeetBelow(a, leq)
    requires WellFormed(g) && Covers(g, r) && n in g.nodes && n != g.exit
    ensures leq(VisitNode(a, g, n, r).0.outFacts[n], r.outFacts[n])
    ensures forall m :: m in g.succs(n) ==> leq(VisitNode(a, g, n, r).0.outFacts[n], r.inFacts[m])
  {
    MeetSuccsBelow(a, leq, g.succs(n), r.inFacts, r.outFacts[n]);
  }

  /** With a meet below both arguments, a pass only lowers OUT facts. */
  lemma {:induction false} PassLowersOut<N(!new), F(!new)>(a: Analysis<N, F>, leq: (F, F) -> bool, g: Cfg<N>, nodes: seq<N>, r: Results<N, F>)
    requires MeetBelow(a, leq)
    requires WellFormed(g) && Covers(g, r)
    requires forall n :: n in nodes ==> n in g.nodes
    ensures forall n :: n in r.outFacts ==> leq(Pass(a, g, nodes, r).0.outFacts[n], r.outFacts[n])
    decreases |nodes|
  {
    if nodes != [] {
      var n0 := nodes[0];
      if n0 != g.exit {
        VisitNodeBelowSuccs(a, leq, g, n0, r);
      }
      var (r1, c1) := VisitNode(a, g, n0, r);
      assert forall n :: n in nodes[1..] ==> n in nodes;
      PassLowersOut(a, leq, g, nodes[1..], r1);
    }
  }

  /** A node's visit changes only that node's facts, and with a faithful
      transfer it reports a change exactly when the node's IN changes. */
  lemma VisitNodeReports<N(!new), F(!new)>(a: Analysis<N, F>, g: Cfg<N>, n: N, r: Results<N, F>)
    requires WellFormed(g) && Covers(g, r) && n in g.nodes
    ensures forall m :: m in r.inFacts && m != n ==> VisitNode(a, g, n, r).0.inFacts[m] == r.inFacts[m]
    ensures Reports(a) ==> (VisitNode(a, g, n, r).1 <==> VisitNode(a, g, n, r).0.inFacts[n] != r.inFacts[n])
  {
    if n != g.exit {
      var out := MeetSuccs(a, g.succs(n), r.inFacts, r.outFacts[n]);
      var t := a.transferNode(n, r.inFacts[n], out);
      assert VisitNode(a, g, n, r).1 == t.0 && VisitNode(a, g, n, r).0.inFacts[n] == t.1;
    }
  }

  /** With a faithful transfer and no node visited twice, a pass reports a
      change exactly when some visited node's IN fact differs afterwards. */
  lemma {:induction false} PassReportsChange<N(!new), F(!new)>(a: Analysis<N, F>, g: Cfg<N>, nodes: seq<N>, r: Results<N, F>)
    requires WellFormed(g) && Covers(g, r)
    requires forall n :: n in nodes ==> n in g.nodes
    requires Reports(a) && Distinct(nodes)
    ensures Pass(a, g, nodes, r).1 <==> exists n :: n in nodes && Pass(a, g, nodes, r).0.inFacts[n] != r.inFacts[n]
    decreases |nodes|
  {
    if nodes != [] {
      var n0 := nodes[0];
      var v := VisitNode(a, g, n0, r);
      var r1, c1 := v.0, v.1;
      var rest := nodes[1..];
      assert forall n :: n in rest ==> n in nodes;
      assert Distinct(rest) && n0 !in rest;
      var p := Pass(a, g, rest, r1);
      var r2, c2 := p.0, p.1;
      assert Pass(a, g, nodes, r) == (r2, c1 || c2);
      VisitNodeReports(a, g, n0, r);
      PassReportsChange(a, g, rest, r1);
      assert r2.inFacts[n0] == r1.inFacts[n0];
      if c2 {
        var m :| m in rest && r2.inFacts[m] != r1.inFacts[m];
        assert m in nodes && r2.inFacts[m] != r.inFacts[m];
      } else if !c1 {
        forall n | n in nodes ensures r2.inFacts[n] == r.inFacts[n] {
          if n != n0 {
            assert n in rest;
          }
        }
      }
    }
  }

  /** `doSolveBackward`: passes until one reports no change, or until `fuel`
      passes have run. When it ends done, `last` is the results the final,
      unchanging pass started from; the exit node's facts are never
      touched. */
  method DoSolveBackward<N(==,!new), F(==,!new)>(a: Analysis<N, F>, g: Cfg<N>, r0: Results<N, F>, fuel: nat)
    returns (r: Results<N, F>, done: bool, last: Results<N, F>)
    requires WellFormed(g) && Covers(g, r0)
    ensures Covers(g, r)
    ensures r.inFacts.Keys == r0.inFacts.Keys && r.outFacts.Keys == r0.outFacts.Keys
    ensures g.exit in r0.inFacts ==> r.inFacts[g.exit] == r0.inFacts[g.exit]
    ensures g.exit in r0.outFacts ==> r.outFacts[g.exit] == r0.outFacts[g.exit]
    ensures done ==> Covers(g, last) && Pass(a, g, g.nodes, last) == (r, false)
    ensures done && Reports(a) && Distinct(g.nodes) ==> forall n :: n in last.inFacts ==> r.inFacts[n] == last.inFacts[n]
  {
    r := r0;
    last := r0;
    done := false;
    var number := 0;
    while number < fuel
      invariant Covers(g, r)
      invariant r.inFacts.Keys == r0.inFacts.Keys && r.outFacts.Keys == r0.outFacts.Keys
      invariant g.exit in r0.inFacts ==> r.inFacts[g.exit] == r0.inFacts[g.exit]
      invariant g.exit in r0.outFacts ==> r.outFacts[g.exit] == r0.outFacts[g.exit]
    {
      var (next, changed) := Pass(a, g, g.nodes, r);
      last := r;
      r := next;
      if !changed {
        done := true;
        if Reports(a) && Distinct(g.nodes) {
          PassReportsChange(a, g, g.nodes, last);
        }
        return;
      }
      number := number + 1;
    }
  }
}
