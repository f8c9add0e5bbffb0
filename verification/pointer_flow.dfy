/** The pointer-flow graph shared by both points-to solvers: the points-to
    set of every pointer, the flow edges between pointers, and the worklist
    of pending `(pointer, points-to set)` entries.

    A worklist entry built from `source.getPointsToSet()` holds the very set
    object of the source pointer, so objects the source gains while the
    entry waits are seen when it is polled; `Live` models that aliasing,
    `Fresh` a set built for the entry alone. */
module PointerFlow {

  datatype PtsRef<P, O> = Live(source: P) | Fresh(objs: set<O>)

  datatype Entry<P, O> = Entry(pointer: P, pts: PtsRef<P, O>)

  datatype Graph<P, O> = Graph(pt: map<P, set<O>>, succs: map<P, set<P>>, worklist: seq<Entry<P, O>>)

  function Empty<P(!new), O(!new)>(): Graph<P, O> {
    Graph(map[], map[], [])
  }

  /** `p.getPointsToSet()`: empty until the pointer gains an object. */
  function Pt<P(!new), O(!new)>(g: Graph<P, O>, p: P): set<O> {
    if p in g.pt then g.pt[p] else {}
  }

  function SuccsOf<P(!new), O(!new)>(g: Graph<P, O>, p: P): set<P> {
    if p in g.succs then g.succs[p] else {}
  }

  /** The objects an entry stands for at this moment. */
  function Contents<P(!new), O(!new)>(g: Graph<P, O>, r: PtsRef<P, O>): set<O> {
    match r
    case Live(q) => Pt(g, q)
    case Fresh(s) => s
  }

  /** `workList.addEntry`: append at the tail. */
  function Enqueue<P(!new), O(!new)>(g: Graph<P, O>, p: P, r: PtsRef<P, O>): Graph<P, O> {
    g.(worklist := g.worklist + [Entry(p, r)])
  }

  /** `pointerFlowGraph.addEdge`: the raw edge insertion, which enqueues
      nothing. */
  function AddEdge<P(!new), O(!new)>(g: Graph<P, O>, s: P, t: P): (r: Graph<P, O>)
    ensures SuccsOf(r, s) == SuccsOf(g, s) + {t}
    ensures forall p :: p != s ==> SuccsOf(r, p) == SuccsOf(g, p)
    ensures r.pt == g.pt && r.worklist == g.worklist
  {
    g.(succs := g.succs[s := SuccsOf(g, s) + {t}])
  }

  /** `addPFGEdge`: insert the edge unless it is already there and, when
      it is new and the source points somewhere, enqueue the target with the
      source's (live) points-to set. */
  function AddPfgEdge<P(!new), O(!new)>(g: Graph<P, O>, s: P, t: P): (r: Graph<P, O>)
    ensures r.pt == g.pt
    ensures t in SuccsOf(r, s)
    ensures forall p :: SuccsOf(r, p) == SuccsOf(g, p) + (if p == s then {t} else {})
    ensures g.worklist <= r.worklist
    ensures |r.worklist| == |g.worklist| + (if t !in SuccsOf(g, s) && Pt(g, s) != {} then 1 else 0)
    ensures |r.worklist| > |g.worklist| ==> r.worklist[|g.worklist|] == Entry(t, Live(s))
  {
    if t in SuccsOf(g, s) then g
    else
      var g' := AddEdge(g, s, t);
      if Pt(g, s) != {} then Enqueue(g', t, Live(s)) else g'
  }

  /** Inserting an edge twice is inserting it once. */
  lemma AddPfgEdgeIdempotent<P(!new), O(!new)>(g: Graph<P, O>, s: P, t: P)
    ensures AddPfgEdge(AddPfgEdge(g, s, t), s, t) == AddPfgEdge(g, s, t)
  {
  }

  /** An edge already present leaves the whole graph, worklist included,
      unchanged. */
  lemma AddPfgEdgePresent<P(!new), O(!new)>(g: Graph<P, O>, s: P, t: P)
    requires t in SuccsOf(g, s)
    ensures AddPfgEdge(g, s, t) == g
  {
  }

  /** The pointers the entries `es` are for. */
  function PointersOf<P(!new), O(!new)>(es: seq<Entry<P, O>>): set<P> {
    if es == [] then {} else PointersOf(es[..|es| - 1]) + {es[|es| - 1].pointer}
  }

  lemma {:induction false} PointersOfIndex<P(!new), O(!new)>(es: seq<Entry<P, O>>, q: P)
    requires q in PointersOf(es)
    ensures exists i :: 0 <= i < |es| && es[i].pointer == q
  {
    if es[|es| - 1].pointer != q {
      PointersOfIndex(es[..|es| - 1], q);
      var i :| 0 <= i < |es| - 1 && es[..|es| - 1][i].pointer == q;
      assert es[i].pointer == q;
    }
  }

  /** What `propagate(p, objs)` leaves behind: the delta is the objects of
      `objs` that `p` did not point to, `p` now points to the union, no other
      points-to set changes, and the appended entries are nothing when the
      delta is empty and otherwise one `(succ, delta)` per successor of `p`. */
  ghost predicate Propagated<P(!new), O(!new)>(g: Graph<P, O>, p: P, objs: set<O>, r: Graph<P, O>, delta: set<O>) {
    && delta == objs - Pt(g, p)
    && Pt(r, p) == Pt(g, p) + objs
    && (forall q :: q != p ==> Pt(r, q) == Pt(g, q))
    && r.succs == g.succs
    && g.worklist <= r.worklist
    && var added := r.worklist[|g.worklist|..];
       && (delta == {} ==> added == [])
       && (delta != {} ==> |added| == |SuccsOf(g, p)| && PointersOf(added) == SuccsOf(g, p))
       && (forall i :: 0 <= i < |added| ==> added[i].pts == Fresh(delta))
  }

  /** The loop of `propagate` over the successors: one `(succ, delta)`
      entry per successor, in the set's iteration order. */
  method FanOut<P(!new), O(!new)>(succs: set<P>, delta: set<O>) returns (added: seq<Entry<P, O>>)
    ensures |added| == |succs| && PointersOf(added) == succs
    ensures forall i :: 0 <= i < |added| ==> added[i].pts == Fresh(delta)
  {
    added := [];
    var rest := succs;
    while rest != {}
      invariant rest <= succs
      invariant |added| == |succs - rest|
      invariant PointersOf(added) == succs - rest
      invariant forall i :: 0 <= i < |added| ==> added[i].pts == Fresh(delta)
      decreases rest
    {
      var s :| s in rest;
      assert (added + [Entry(s, Fresh(delta))])[..|added|] == added;
      assert succs - (rest - {s}) == (succs - rest) + {s};
      added := added + [Entry(s, Fresh(delta))];
      rest := rest - {s};
    }
  }

  /** `propagate`: add `objs` to pt(p) and pass the objects that are new on
      to every successor. */
  method Propagate<P(!new), O(!new)>(g: Graph<P, O>, p: P, objs: set<O>) returns (r: Graph<P, O>, delta: set<O>)
    ensures Propagated(g, p, objs, r, delta)
  {
    delta := objs - Pt(g, p);
    var added: seq<Entry<P, O>> := [];
    if delta != {} {
      added := FanOut(SuccsOf(g, p), delta);
    }
    r := Graph(g.pt[p := Pt(g, p) + objs], g.succs, g.worklist + added);
    assert r.worklist[|g.worklist|..] == added;
  }

  /** Some entry of the worklist for `t` stands for `o`. */
  ghost predicate PendingAt<P(!new), O(!new)>(g: Graph<P, O>, t: P, o: O) {
    exists i :: 0 <= i < |g.worklist| && g.worklist[i].pointer == t && o in Contents(g, g.worklist[i].pts)
  }

  /** Every object of a pointer has reached each of its successors, or is
      still waiting in the worklist for that successor. */
  ghost predicate Closed<P(!new), O(!new)>(g: Graph<P, O>) {
    forall s, t, o :: t in SuccsOf(g, s) && o in Pt(g, s) ==> o in Pt(g, t) || PendingAt(g, t, o)
  }

  lemma ClosedEmpty<P(!new), O(!new)>()
    ensures Closed(Empty<P, O>())
  {
  }

  /** Appending entries keeps what was pending. */
  lemma PendingGrows<P(!new), O(!new)>(g: Graph<P, O>, r: Graph<P, O>, t: P, o: O)
    requires g.worklist <= r.worklist && r.pt == g.pt && PendingAt(g, t, o)
    ensures PendingAt(r, t, o)
  {
    var i :| 0 <= i < |g.worklist| && g.worklist[i].pointer == t && o in Contents(g, g.worklist[i].pts);
    assert r.worklist[i] == g.worklist[i];
  }

  lemma ClosedEnqueue<P(!new), O(!new)>(g: Graph<P, O>, p: P, r: PtsRef<P, O>)
    requires Closed(g)
    ensures Closed(Enqueue(g, p, r))
  {
    var g' := Enqueue(g, p, r);
    forall s, t, o | t in SuccsOf(g', s) && o in Pt(g', s) ensures o in Pt(g', t) || PendingAt(g', t, o) {
      assert t in SuccsOf(g, s) && o in Pt(g, s);
      if o !in Pt(g, t) {
        PendingGrows(g, g', t, o);
      }
    }
  }

  /** `addPFGEdge` keeps the graph closed: a new edge out of a pointer that
      points somewhere comes with an entry holding the source's set. */
  lemma ClosedAddPfgEdge<P(!new), O(!new)>(g: Graph<P, O>, s: P, t: P)
    requires Closed(g)
    ensures Closed(AddPfgEdge(g, s, t))
  {
    var g' := AddPfgEdge(g, s, t);
    forall a, b, o | b in SuccsOf(g', a) && o in Pt(g', a) ensures o in Pt(g', b) || PendingAt(g', b, o) {
      if a == s && b == t && t !in SuccsOf(g, s) {
        var i := |g.worklist|;
        assert g'.worklist[i] == Entry(t, Live(s));
      } else if o !in Pt(g, b) {
        PendingGrows(g, g', b, o);
      }
    }
  }

  /** Polling the head entry and propagating its objects keeps the graph
      closed: what the head stood for is now in pt(p), and the delta waits
      in an entry for every successor. */
  lemma ClosedPropagate<P(!new), O(!new)>(g: Graph<P, O>, r: Graph<P, O>, delta: set<O>)
    requires Closed(g) && g.worklist != []
    requires var e := g.worklist[0];
             Propagated(g.(worklist := g.worklist[1..]), e.pointer, Contents(g, e.pts), r, delta)
    ensures Closed(r)
  {
    var e := g.worklist[0];
    var p := e.pointer;
    var g1 := g.(worklist := g.worklist[1..]);
    forall a, b, o | b in SuccsOf(r, a) && o in Pt(r, a) ensures o in Pt(r, b) || PendingAt(r, b, o) {
      assert b in SuccsOf(g, a);
      if o in Pt(g, a) {
        ReachesAfterPropagate(g, r, delta, b, o);
      } else {
        assert a == p && o in delta;
        var added := r.worklist[|g1.worklist|..];
        PointersOfIndex(added, b);
        var k :| 0 <= k < |added| && added[k].pointer == b;
        assert r.worklist[|g1.worklist| + k] == added[k];
      }
    }
  }

  /** `r` follows `g` by steps that leave points-to sets alone: edges and
      worklist entries are only added. */
  ghost predicate Grows<P(!new), O(!new)>(g: Graph<P, O>, r: Graph<P, O>) {
    && r.pt == g.pt
    && (forall p :: SuccsOf(g, p) <= SuccsOf(r, p))
    && g.worklist <= r.worklist
  }

  lemma GrowsTrans<P(!new), O(!new)>(g1: Graph<P, O>, g2: Graph<P, O>, g3: Graph<P, O>)
    requires Grows(g1, g2) && Grows(g2, g3)
    ensures Grows(g1, g3)
  {
    assert g1.worklist == g3.worklist[..|g1.worklist|];
  }

  /** A sequence of `addPFGEdge` calls, in order. */
  method AddPfgEdges<P(!new), O(!new)>(g: Graph<P, O>, es: seq<(P, P)>) returns (r: Graph<P, O>)
    ensures r.pt == g.pt && g.worklist <= r.worklist
    ensures forall p :: SuccsOf(g, p) <= SuccsOf(r, p)
    ensures forall k :: 0 <= k < |es| ==> es[k].1 in SuccsOf(r, es[k].0)
    ensures forall p, q :: q in SuccsOf(r, p) <==> q in SuccsOf(g, p) || (p, q) in es
    ensures Closed(g) ==> Closed(r)
  {
    r := g;
    var i := 0;
    while i < |es|
      invariant 0 <= i <= |es|
      invariant r.pt == g.pt && g.worklist <= r.worklist
      invariant forall p :: SuccsOf(g, p) <= SuccsOf(r, p)
      invariant forall k :: 0 <= k < i ==> es[k].1 in SuccsOf(r, es[k].0)
      invariant forall p, q :: q in SuccsOf(r, p) <==> q in SuccsOf(g, p) || (p, q) in es[..i]
      invariant Closed(g) ==> Closed(r)
    {
      assert es[..i + 1] == es[..i] + [es[i]];
      if Closed(r) {
        ClosedAddPfgEdge(r, es[i].0, es[i].1);
      }
      r := AddPfgEdge(r, es[i].0, es[i].1);
      i := i + 1;
    }
    assert es[..i] == es;
  }

  /** An object that had reached `t`, or was waiting for it, still has or
      still is after the head entry is polled and propagated. */
  lemma ReachesAfterPropagate<P(!new), O(!new)>(g: Graph<P, O>, r: Graph<P, O>, delta: set<O>, t: P, o: O)
    requires g.worklist != []
    requires var e := g.worklist[0];
             Propagated(g.(worklist := g.worklist[1..]), e.pointer, Contents(g, e.pts), r, delta)
    requires o in Pt(g, t) || PendingAt(g, t, o)
    ensures o in Pt(r, t) || PendingAt(r, t, o)
  {
    var p := g.worklist[0].pointer;
    if o !in Pt(g, t) {
      var i :| 0 <= i < |g.worklist| && g.worklist[i].pointer == t && o in Contents(g, g.worklist[i].pts);
      if i == 0 {
        assert o in Pt(r, p);
      } else {
        ContentsGrow(g, r, g.worklist[i].pts);
        assert r.worklist[i - 1] == g.worklist[i];
      }
    }
  }

  /** A `Fresh` entry in the worklist makes its objects pending. */
  lemma EntryPending<P(!new), O(!new)>(g: Graph<P, O>, t: P, objs: set<O>, o: O)
    requires Entry(t, Fresh(objs)) in g.worklist && o in objs
    ensures PendingAt(g, t, o)
  {
    var i :| 0 <= i < |g.worklist| && g.worklist[i] == Entry(t, Fresh(objs));
  }

  /** Points-to sets only grow under `propagate`, so live entries only grow. */
  lemma ContentsGrow<P(!new), O(!new)>(g: Graph<P, O>, r: Graph<P, O>, x: PtsRef<P, O>)
    requires forall q :: Pt(g, q) <= Pt(r, q)
    ensures Contents(g, x) <= Contents(r, x)
  {
  }

  /** At an empty worklist a closed graph is a solution: points-to sets flow
      along every edge. */
  lemma ClosedAtFixpoint<P(!new), O(!new)>(g: Graph<P, O>)
    requires Closed(g) && g.worklist == []
    ensures forall s, t :: t in SuccsOf(g, s) ==> Pt(g, s) <= Pt(g, t)
  {
    forall s, t, o | t in SuccsOf(g, s) && o in Pt(g, s) ensures o in Pt(g, t) {
      assert !PendingAt(g, t, o);
    }
  }
}
