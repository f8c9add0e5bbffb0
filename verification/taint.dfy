/** Taint analysis on top of the context-sensitive pointer analysis: the
    configuration's sources, sinks and taint transfers, the taint objects
    a source call creates, and the collection of taint flows from the
    finished analysis — every tainted object that reaches an argument of a
    sink call. */
module Taint {
  import opened Ir
  import opened PointerFlow
  import opened PtaCs

  /** A call to `callee` returning `ty` produces taint. */
  datatype Source = Source(callee: MethodId, ty: Type)

  /** Argument `index` of a call to `callee` must not receive taint. */
  datatype Sink = Sink(callee: MethodId, index: int)

  /** A call to `callee` moves taint of type `ty` from `from` to `to`, each
      an argument index or one of `Base` and `ResultIndex`. */
  datatype TaintTransfer = TaintTransfer(callee: MethodId, from: int, to: int, ty: Type)

  datatype TaintConfig = TaintConfig(sources: seq<Source>, sinks: seq<Sink>, transfers: seq<TaintTransfer>)

  /** The index that stands for the receiver of a call. */
  const Base: int := -1

  /** The index that stands for the result of a call. */
  const ResultIndex: int := -2

  /** A flow from the source call that created a taint object to argument
      `index` of a sink call. */
  datatype TaintFlow = TaintFlow(sourceCall: Stmt, sinkCall: Stmt, index: int)

  /** `isSource`: a scan of the configured sources. */
  method IsSource(config: TaintConfig, m: MethodId, ty: Type) returns (r: bool)
    ensures r <==> Source(m, ty) in config.sources
  {
    for i := 0 to |config.sources|
      invariant Source(m, ty) !in config.sources[..i]
    {
      var source := config.sources[i];
      if source.callee == m && source.ty == ty {
        return true;
      }
    }
    return false;
  }

  /** `isSink`: a scan of the configured sinks. */
  method IsSink(config: TaintConfig, m: MethodId, index: int) returns (r: bool)
    ensures r <==> Sink(m, index) in config.sinks
  {
    for i := 0 to |config.sinks|
      invariant Sink(m, index) !in config.sinks[..i]
    {
      var sink := config.sinks[i];
      if sink.callee == m && sink.index == index {
        return true;
      }
    }
    return false;
  }

  /** The scan shared by the three transfer queries. */
  method HasTransfer(config: TaintConfig, m: MethodId, from: int, to: int, ty: Type) returns (r: bool)
    ensures r <==> TaintTransfer(m, from, to, ty) in config.transfers
  {
    for i := 0 to |config.transfers|
      invariant TaintTransfer(m, from, to, ty) !in config.transfers[..i]
    {
      var transfer := config.transfers[i];
      if transfer.callee == m && transfer.ty == ty && transfer.from == from && transfer.to == to {
        return true;
      }
    }
    return false;
  }

  /** `isBaseToResult`: taint of the receiver flows to the result. */
  method IsBaseToResult(config: TaintConfig, m: MethodId, ty: Type) returns (r: bool)
    ensures r <==> TaintTransfer(m, Base, ResultIndex, ty) in config.transfers
  {
    r := HasTransfer(config, m, Base, ResultIndex, ty);
  }

  /** `isArgToBase`: taint of argument `index` flows to the receiver. */
  method IsArgToBase(config: TaintConfig, m: MethodId, index: int, ty: Type) returns (r: bool)
    ensures r <==> TaintTransfer(m, index, Base, ty) in config.transfers
  {
    r := HasTransfer(config, m, index, Base, ty);
  }

  /** `isArgToResult`: taint of argument `index` flows to the result. */
  method IsArgToResult(config: TaintConfig, m: MethodId, index: int, ty: Type) returns (r: bool)
    ensures r <==> TaintTransfer(m, index, ResultIndex, ty) in config.transfers
  {
    r := HasTransfer(config, m, index, ResultIndex, ty);
  }

  /** A taint object: its allocation site is the source call that created
      it, where an ordinary object's is a `new` statement. */
  predicate IsTaint(o: Obj) {
    o.allocation.kind.Invoke?
  }

  /** `markObjAsTaint`: the taint object of type `u` for source call `l`. */
  function MakeTaint(l: Stmt, u: Type): (o: Obj)
    requires l.kind.Invoke?
    ensures IsTaint(o)
    ensures o.allocation == l && o.ty == u
  {
    Obj(l, u)
  }

  /** The arguments of a call statement. */
  function ArgsOf(call: Stmt): seq<Var> {
    if call.kind.Invoke? then call.kind.invokeExp.args else []
  }

  /** The points-to set of argument `i` of the call on edge `e`, in the
      caller's context. */
  function ArgPts(s: State, e: CSEdge, i: nat): set<CSObj>
    requires i < |ArgsOf(e.site.site)|
  {
    Pt(s.graph, VarPtr(CSVar(e.site.ctx, ArgsOf(e.site.site)[i])))
  }

  /** Flow `f` is witnessed by call edge `e`: `e`'s call site is the sink
      call, the callee is a sink at `f.index`, and a taint object created
      by `f.sourceCall` reaches that argument. */
  ghost predicate FlowVia(config: TaintConfig, s: State, e: CSEdge, f: TaintFlow) {
    && e.site.site == f.sinkCall
    && 0 <= f.index < |ArgsOf(e.site.site)|
    && Sink(e.callee.m, f.index) in config.sinks
    && exists o :: o in ArgPts(s, e, f.index) && IsTaint(o.obj) && o.obj.allocation == f.sourceCall
  }

  /** The flows one call edge contributes. */
  function FlowsAt(config: TaintConfig, s: State, e: CSEdge): (r: set<TaintFlow>)
    ensures forall f :: f in r <==> FlowVia(config, s, e, f)
  {
    var args := ArgsOf(e.site.site);
    var r := set i, o | 0 <= i < |args| && Sink(e.callee.m, i) in config.sinks && o in ArgPts(s, e, i) && IsTaint(o.obj)
                :: TaintFlow(o.obj.allocation, e.site.site, i);
    assert forall f :: FlowVia(config, s, e, f) ==> f in r by {
      forall f | FlowVia(config, s, e, f) ensures f in r {
        var o :| o in ArgPts(s, e, f.index) && IsTaint(o.obj) && o.obj.allocation == f.sourceCall;
        assert f == TaintFlow(o.obj.allocation, e.site.site, f.index);
      }
    }
    r
  }

  /** `collectTaintFlows`: over every edge of the context-sensitive call
      graph, the flows of tainted objects into sink arguments. A flow is
      reported exactly when some call edge witnesses it. */
  method CollectTaintFlows(config: TaintConfig, s: State) returns (r: set<TaintFlow>)
    ensures forall f :: f in r <==> exists e :: e in s.edges && FlowVia(config, s, e, f)
  {
    r := {};
    var rest := s.edges;
    while rest != {}
      invariant rest <= s.edges
      invariant forall f :: f in r <==> exists e :: e in s.edges && e !in rest && FlowVia(config, s, e, f)
      decreases rest
    {
      var e :| e in rest;
      r := r + FlowsAt(config, s, e);
      rest := rest - {e};
    }
  }
}
