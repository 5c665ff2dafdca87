/**
 * `FlattenStatementsHelper`: flattens a method's statement tree into the direct graph the
 * SSA passes run on.  Each statement is given its destination nodes (`mapDestinationNodes`:
 * where an edge to it leads, and where a `continue` to it leads); edges are first collected
 * by statement id (`listEdges`) and then resolved to nodes (`setEdges`).  Edges that leave a
 * `finally`-protected body are routed through the handler with a stack of finally contexts,
 * and the paths through handlers are recorded for the later passes.
 *
 * DirectGraph.java and DirectNode.java are not part of this model: a node is its id and its
 * expression list; its successor and predecessor lists are kept in maps of the graph.
 */
module FlattenStatements {
  import opened Wrappers
  import opened Exprents
  import opened Statements
  import opened FlattenNames

  const NPE: string := "NullPointerException"
  const IOOBE: string := "IndexOutOfBoundsException"
  const OUT_OF_FUEL: string := "out of fuel"

  /** `DestNodePair`: the node an edge to a statement leads to, and the node a `continue` to
    * it leads to (`null` except for loops). */
  datatype DestNodePair = DestNodePair(direct: NodeId, cont: Option<NodeId>)

  /** `Edge`: a source node, a destination statement id and an edge type. */
  datatype Edge = Edge(source: NodeId, statId: int, edgeType: int)

  /** `StackEntry`: a finally context.  `Protected` is the state-`false` entry of a `finally`
    * statement's protected body; `Handler` is the state-`true` entry of its handler, with the
    * edge that is resumed when the handler exits. */
  datatype StackEntry =
    | Protected(catchStat: Statement)
    | Handler(catchStat: Statement, edgeType: int, destination: int, shortEntry: int, longEntry: int,
              shortSource: NodeId, longSource: NodeId, isFinallyExceptionPath: bool)

  /** `StatementStackEntry`. */
  datatype StatementStackEntry = StatementStackEntry(
    statement: Statement,
    stackFinally: seq<StackEntry>,
    tailExprents: Option<seq<Exprent>>,
    statementIndex: int,
    edgeIndex: int,
    succEdges: Option<seq<StatEdge>>)

  /** The three-argument `StatementStackEntry` constructor. */
  function NewEntry(s: Statement, stack: seq<StackEntry>, tail: Option<seq<Exprent>>): StatementStackEntry
  {
    StatementStackEntry(s, stack, tail, 0, 0, None)
  }

  /** The destination pairs a basic block records: its own node, and with tail expressions
    * the `_tail` node under the negated id. */
  function BlockDestinations(m: map<int, DestNodePair>, s: Statement, hasTail: bool): map<int, DestNodePair>
  {
    var node := NodeId(s.id, Direct);
    if hasTail then m[s.id := DestNodePair(node, None)][-s.id := DestNodePair(NodeId(s.id, Tail), None)]
    else m[s.id := DestNodePair(node, None)]
  }

  /** The destination pairs a loop records once its body, entered at `nd`, is flattened: a
    * plain `do` enters and continues at the body; `while` at `_cond`; `do-while` enters at
    * the body and continues at `_cond`; `for` and foreach enter at `_init`, continue at
    * `_inc`, and register `_cond` under the negated id. */
  function DoDestinations(m: map<int, DestNodePair>, s: Statement, nd: NodeId): map<int, DestNodePair>
    requires s.kind.Do?
  {
    var cond, init, inc := NodeId(s.id, Cond), NodeId(s.id, Init), NodeId(s.id, Inc);
    match s.kind.loopType
    case LoopDo => m[s.id := DestNodePair(nd, Some(nd))]
    case LoopWhile => m[s.id := DestNodePair(cond, Some(cond))]
    case LoopDoWhile => m[s.id := DestNodePair(nd, Some(cond))]
    case _ => m[s.id := DestNodePair(init, Some(inc))][-s.id := DestNodePair(cond, None)]
  }

  /** The kinds `processStatement` hands to `processOtherStatement`. */
  predicate OtherKind(k: Kind)
  {
    !k.BasicBlock? && !k.TryCatch? && !k.CatchAll? && !k.Do? && !k.General?
  }

  lemma DoDestinationsByType(m: map<int, DestNodePair>, s: Statement, nd: NodeId)
    requires s.kind.Do?
    ensures var cond, init, inc := NodeId(s.id, Cond), NodeId(s.id, Init), NodeId(s.id, Inc);
      (s.kind.loopType == LoopDo ==> DoDestinations(m, s, nd) == m[s.id := DestNodePair(nd, Some(nd))]) &&
      (s.kind.loopType == LoopWhile ==> DoDestinations(m, s, nd) == m[s.id := DestNodePair(cond, Some(cond))]) &&
      (s.kind.loopType == LoopDoWhile ==> DoDestinations(m, s, nd) == m[s.id := DestNodePair(nd, Some(cond))]) &&
      (s.kind.loopType == LoopFor || s.kind.loopType == LoopForEach ==>
         DoDestinations(m, s, nd) == m[s.id := DestNodePair(init, Some(inc))][-s.id := DestNodePair(cond, None)])
  {
  }

  predicate GoodEntry(e: StatementStackEntry)
  {
    e.statementIndex >= 0 && e.edgeIndex >= 0
  }

  /** A short-range finally path record: the path's source node, destination statement,
    * entry statement, the monitor flag and the continue flag. */
  datatype ShortPath = ShortPath(source: NodeId, destination: int, entry: int, monitorPath: bool, isContinue: bool)

  /** A long-range finally path record. */
  datatype LongPath = LongPath(source: NodeId, destination: int, entry: int, isContinue: bool)

  /** The expression list of a basic block's node (an absent list leaves the node's own empty
    * list in place). */
  function BlockExprents(s: Statement): seq<Exprent>
  {
    if s.exprents.Some? then s.exprents.value else []
  }

  /** The head expression of an if, switch or synchronized statement. */
  function HeadOf(k: Kind): Option<Exprent>
  {
    match k
    case If(h, _) => h
    case Switch(h) => h
    case Synchronized(h) => h
    case _ => None
  }

  // ---------------------------------------------------------------------------------------
  // Routing an edge through the finally contexts

  /** The state of the inner loop of `flattenStatement` while it walks the finally stack. */
  datatype Walk = Walk(
    edgeType: int,
    destination: int,
    shortSource: NodeId,
    longSource: NodeId,
    shortEntry: Option<int>,
    longEntry: Option<int>,
    monitorPath: bool,
    isFinallyExit: bool)

  /** The arguments of one `saveEdge` call (after `source`). */
  datatype Save = Save(
    destination: int,
    edgeType: int,
    shortSource: Option<NodeId>,
    longSource: NodeId,
    shortEntry: Option<int>,
    longEntry: Option<int>,
    monitorPath: bool)

  /** What routing one edge does: the `saveEdge` call it ends with, and, when the edge leaves
    * a protected body, the handler to visit next with its finally stack. */
  datatype Routed = Routed(save: Save, redirect: Option<(Statement, seq<StackEntry>)>)

  function StartWalk(source: NodeId, edge: StatEdge): Walk
  {
    Walk(edge.edgeType, edge.destination, source, source, None, None, false, false)
  }

  predicate WalkOk(w: Walk)
  {
    w.isFinallyExit ==> w.shortEntry.Some? && w.longEntry.Some?
  }

  /** A finally path is recorded only with its entry statements. */
  predicate SaveOk(s: Save)
  {
    s.shortSource.Some? ==> s.shortEntry.Some? && s.longEntry.Some?
  }

  function SaveOf(w: Walk): Save
  {
    Save(w.destination, w.edgeType, if w.isFinallyExit then Some(w.shortSource) else None,
         w.longSource, w.shortEntry, w.longEntry, w.monitorPath)
  }

  /** The inner `while (true)` loop of `flattenStatement`, from the innermost finally context
    * (the end of the stack) outwards. */
  function Route(source: NodeId, stack: seq<StackEntry>, w: Walk): (r: Result<Routed>)
    requires WalkOk(w)
    ensures r.Success? ==> SaveOk(r.value.save)
    ensures r.Success? && r.value.redirect.Some? ==> r.value.save.edgeType == TYPE_REGULAR
    decreases |stack|
  {
    if |stack| == 0 then Success(Routed(SaveOf(w), None))
    else
      var rest := stack[..|stack| - 1];
      match stack[|stack| - 1]
      case Handler(c, et, d, se, le, ss, ls, fep) =>
        if w.edgeType == TYPE_FINALLYEXIT then
          Route(source, rest, Walk(et, d, ss, ls, Some(se), Some(le), c.kind.CatchAll? && c.kind.monitor.Some? && fep, true))
        else if !ContainsStrict(c, w.destination) then Route(source, rest, w)
        else Success(Routed(SaveOf(w), None))
      case Protected(c) =>
        if ContainsStrict(c, w.destination) then Success(Routed(SaveOf(w), None))
        else if |c.stats| < 2 then Failure(NPE)
        else
          var h := c.stats[1];
          var swapped := Handler(c, w.edgeType, w.destination, h.id,
                                 if w.longEntry.Some? then w.longEntry.value else h.id,
                                 source, w.longSource, false);
          Success(Routed(SaveOf(w.(destination := h.id, edgeType := TYPE_REGULAR)), Some((h, rest + [swapped]))))
  }

  /** An edge that leaves a finally-protected body becomes a regular edge to the handler, and
    * the protected entry is swapped for a handler entry remembering the edge's destination
    * and type, its long-range entry, and the current node as the short-range source. */
  lemma RouteLeavesProtected(source: NodeId, stack: seq<StackEntry>, w: Walk)
    requires WalkOk(w) && |stack| > 0 && stack[|stack| - 1].Protected?
    requires !ContainsStrict(stack[|stack| - 1].catchStat, w.destination)
    requires |stack[|stack| - 1].catchStat.stats| >= 2
    ensures var c := stack[|stack| - 1].catchStat; var h := c.stats[1];
      var r := Route(source, stack, w);
      r.Success? && r.value.save.destination == h.id && r.value.save.edgeType == TYPE_REGULAR &&
      r.value.redirect == Some((h, stack[..|stack| - 1] +
        [Handler(c, w.edgeType, w.destination, h.id, if w.longEntry.Some? then w.longEntry.value else h.id,
                 source, w.longSource, false)]))
  {
  }

  /** A `FINALLYEXIT` edge inside a handler pops the handler's entry and carries on with the
    * destination and type stored in it, now as a finally exit. */
  lemma RouteResumesAfterHandler(source: NodeId, stack: seq<StackEntry>, w: Walk)
    requires WalkOk(w) && |stack| > 0 && stack[|stack| - 1].Handler? && w.edgeType == TYPE_FINALLYEXIT
    ensures var e := stack[|stack| - 1];
      Route(source, stack, w) ==
        Route(source, stack[..|stack| - 1],
              Walk(e.edgeType, e.destination, e.shortSource, e.longSource, Some(e.shortEntry), Some(e.longEntry),
                   e.catchStat.kind.CatchAll? && e.catchStat.kind.monitor.Some? && e.isFinallyExceptionPath, true))
  {
  }

  /** Among handler contexts only, an edge other than a finally exit is never redirected: it
    * is saved with its own destination and type. */
  lemma {:induction false} RouteInsideHandlers(source: NodeId, stack: seq<StackEntry>, w: Walk)
    requires WalkOk(w) && w.edgeType != TYPE_FINALLYEXIT
    requires forall k :: 0 <= k < |stack| ==> stack[k].Handler?
    ensures Route(source, stack, w) == Success(Routed(SaveOf(w), None))
  {
    if |stack| > 0 {
      var c := stack[|stack| - 1].catchStat;
      if !ContainsStrict(c, w.destination) {
        RouteInsideHandlers(source, stack[..|stack| - 1], w);
      }
    }
  }

  /** A finally exit outside every finally context is saved but, being a finally exit, never
    * becomes an edge of the graph (see `SaveEdge`). */
  lemma RouteWithoutContexts(source: NodeId, w: Walk)
    requires WalkOk(w)
    ensures Route(source, [], w) == Success(Routed(SaveOf(w), None))
  {
  }

  // ---------------------------------------------------------------------------------------
  // The graph

  /** The part of `DirectGraph` the flattening fills in. */
  class DirectGraph {
    var nodes: map<NodeId, seq<Exprent>>
    var succs: map<NodeId, seq<NodeId>>
    var preds: map<NodeId, seq<NodeId>>
    var first: Option<NodeId>
    var mapNegIfBranch: map<NodeId, NodeId>
    var mapShortRangeFinallyPaths: map<NodeId, seq<FinallyPathWrapper>>
    var mapLongRangeFinallyPaths: map<NodeId, seq<FinallyPathWrapper>>
    var mapFinallyMonitorExceptionPathExits: map<NodeId, NodeId>

    constructor ()
      ensures nodes == map[] && succs == map[] && preds == map[] && first == None
      ensures mapNegIfBranch == map[] && mapShortRangeFinallyPaths == map[]
      ensures mapLongRangeFinallyPaths == map[] && mapFinallyMonitorExceptionPathExits == map[]
    {
      nodes, succs, preds, first := map[], map[], map[], None;
      mapNegIfBranch, mapShortRangeFinallyPaths := map[], map[];
      mapLongRangeFinallyPaths, mapFinallyMonitorExceptionPathExits := map[], map[];
    }

    /** `node.succs`. */
    function Succs(n: NodeId): seq<NodeId>
      reads this`succs
    {
      if n in succs then succs[n] else []
    }

    /** `node.preds`. */
    function Preds(n: NodeId): seq<NodeId>
      reads this`preds
    {
      if n in preds then preds[n] else []
    }

    /** Every successor link is a predecessor link the other way, and back. */
    ghost predicate Mirrored()
      reads this`succs, this`preds
    {
      forall a, b :: b in Succs(a) <==> a in Preds(b)
    }

    ghost predicate DupFree()
      reads this`succs, this`preds
    {
      (forall n :: n in succs ==> NoDups(succs[n])) && (forall n :: n in preds ==> NoDups(preds[n]))
    }

    /** Links join nodes of the graph. */
    ghost predicate Closed()
      reads this`succs, this`nodes
    {
      forall a, b :: b in Succs(a) ==> a in nodes && b in nodes
    }

    /** The lists are empty: nothing is linked yet. */
    ghost predicate Unlinked()
      reads this
    {
      succs == map[] && preds == map[] && first == None && mapNegIfBranch == map[]
      && mapShortRangeFinallyPaths == map[] && mapLongRangeFinallyPaths == map[]
      && mapFinallyMonitorExceptionPathExits == map[]
    }

    /** `if (!source.succs.contains(dest)) source.succs.add(dest)` and the same for
      * `dest.preds`. */
    method Link(a: NodeId, b: NodeId)
      requires Mirrored() && DupFree()
      modifies this
      ensures Mirrored() && DupFree()
      ensures forall x, y :: y in Succs(x) <==> y in old(Succs(x)) || (x == a && y == b)
      ensures nodes == old(nodes) && first == old(first) && mapNegIfBranch == old(mapNegIfBranch)
      ensures mapShortRangeFinallyPaths == old(mapShortRangeFinallyPaths)
      ensures mapLongRangeFinallyPaths == old(mapLongRangeFinallyPaths)
      ensures mapFinallyMonitorExceptionPathExits == old(mapFinallyMonitorExceptionPathExits)
    {
      var s := Succs(a);
      if b !in s {
        succs := succs[a := s + [b]];
      }
      var p := Preds(b);
      if a !in p {
        preds := preds[b := p + [a]];
      }
      assert forall x :: x != a ==> Succs(x) == old(Succs(x));
      assert forall y :: y != b ==> Preds(y) == old(Preds(y));
      assert forall y :: y in Succs(a) <==> y in old(Succs(a)) || y == b;
      assert forall x :: x in Preds(b) <==> x in old(Preds(b)) || x == a;
    }
  }

  // ---------------------------------------------------------------------------------------
  // The helper

  class FlattenHelper {
    const root: Statement
    const graph: DirectGraph
    var mapDestinationNodes: map<int, DestNodePair>
    var listEdges: seq<Edge>
    var mapShortRangeFinallyPathIds: map<NodeId, seq<ShortPath>>
    var mapLongRangeFinallyPathIds: map<NodeId, seq<LongPath>>
    var mapPosIfBranch: map<NodeId, int>

    /** A helper for one `buildDirectGraph(root)` call. */
    constructor (root: Statement)
      requires root.kind.Root?
      ensures this.root == root && fresh(graph)
      ensures Flattening() && graph.nodes == map[]
      ensures mapDestinationNodes == map[] && listEdges == [] && mapPosIfBranch == map[]
      ensures mapShortRangeFinallyPathIds == map[] && mapLongRangeFinallyPathIds == map[]
    {
      this.root := root;
      graph := new DirectGraph();
      mapDestinationNodes, listEdges, mapPosIfBranch := map[], [], map[];
      mapShortRangeFinallyPathIds, mapLongRangeFinallyPathIds := map[], map[];
    }

    /** Every collected edge can be resolved against nodes of the graph: no finally exit is
      * collected, every source is a node, and every destination pair names nodes. */
    ghost predicate Resolvable()
      reads this, graph`nodes
    {
      (forall e :: e in listEdges ==> e.edgeType != TYPE_FINALLYEXIT && e.source in graph.nodes)
      && (forall id :: id in mapDestinationNodes ==>
            mapDestinationNodes[id].direct in graph.nodes &&
            (mapDestinationNodes[id].cont.Some? ==> mapDestinationNodes[id].cont.value in graph.nodes))
    }

    /** The state while the tree is being flattened. */
    ghost predicate Flattening()
      reads this, graph
    {
      root.kind.Root? && Resolvable() && graph.Unlinked()
    }

    /** Where an edge leads: the continue node for a continue edge, the direct node
      * otherwise; `None` where the code would dereference `null`. */
    function Resolve(e: Edge): Option<NodeId>
      reads this
    {
      if e.statId !in mapDestinationNodes then None
      else if e.edgeType == TYPE_CONTINUE then mapDestinationNodes[e.statId].cont
      else Some(mapDestinationNodes[e.statId].direct)
    }

    // -------------------------------------------------------------------------------------
    // Single updates: `graph.nodes.putWithKey`, `mapDestinationNodes.put`, `listEdges.add`

    method AddNode(n: NodeId, ex: seq<Exprent>)
      requires Flattening()
      modifies graph
      ensures Flattening() && graph.nodes == old(graph.nodes)[n := ex]
    {
      graph.nodes := graph.nodes[n := ex];
    }

    method PutDest(id: int, pair: DestNodePair)
      requires Flattening() && pair.direct in graph.nodes
      requires pair.cont.Some? ==> pair.cont.value in graph.nodes
      modifies this
      ensures Flattening() && mapDestinationNodes == old(mapDestinationNodes)[id := pair]
      ensures listEdges == old(listEdges) && mapPosIfBranch == old(mapPosIfBranch)
      ensures mapShortRangeFinallyPathIds == old(mapShortRangeFinallyPathIds)
      ensures mapLongRangeFinallyPathIds == old(mapLongRangeFinallyPathIds)
    {
      mapDestinationNodes := mapDestinationNodes[id := pair];
    }

    method AddEdge(e: Edge)
      requires Flattening() && e.source in graph.nodes && e.edgeType != TYPE_FINALLYEXIT
      modifies this
      ensures Flattening() && listEdges == old(listEdges) + [e]
      ensures mapDestinationNodes == old(mapDestinationNodes) && mapPosIfBranch == old(mapPosIfBranch)
      ensures mapShortRangeFinallyPathIds == old(mapShortRangeFinallyPathIds)
      ensures mapLongRangeFinallyPathIds == old(mapLongRangeFinallyPathIds)
    {
      listEdges := listEdges + [e];
    }

    // -------------------------------------------------------------------------------------
    // process*Statement

    /** `processBasicBlockStatement`: the block's node carries its expressions; with tail
      * expressions a `_tail` node, registered under the negated id and reached by a regular
      * edge from the block's node, becomes the source of the block's edges.  A block ending
      * in an if records its first successor as the positive branch of that source. */
    method ProcessBasicBlock(entry: StatementStackEntry) returns (res: Result<Option<NodeId>>, lstSucc: seq<StatEdge>)
      requires Flattening() && entry.statement.kind.BasicBlock?
      modifies this, graph
      ensures Flattening()
      ensures lstSucc == DirectAll(entry.statement.succs)
      ensures mapDestinationNodes == BlockDestinations(old(mapDestinationNodes), entry.statement, entry.tailExprents.Some?)
      ensures var s := entry.statement; var node := NodeId(s.id, Direct); var tail := NodeId(s.id, Tail);
        (entry.tailExprents.Some? ==>
          graph.nodes == old(graph.nodes)[node := BlockExprents(s)][tail := entry.tailExprents.value] &&
          listEdges == old(listEdges) + [Edge(node, -s.id, TYPE_REGULAR)]) &&
        (entry.tailExprents.None? ==>
          graph.nodes == old(graph.nodes)[node := BlockExprents(s)] &&
          listEdges == old(listEdges))
      ensures var s := entry.statement;
        var source := if entry.tailExprents.Some? then NodeId(s.id, Tail) else NodeId(s.id, Direct);
        (res.Failure? <==> s.kind.lastIsIf && |lstSucc| == 0) &&
        (res.Success? ==> res.value == Some(source)) &&
        (res.Success? && s.kind.lastIsIf ==> mapPosIfBranch == old(mapPosIfBranch)[source := lstSucc[0].destination]) &&
        (!s.kind.lastIsIf ==> mapPosIfBranch == old(mapPosIfBranch))
      ensures mapShortRangeFinallyPathIds == old(mapShortRangeFinallyPathIds)
      ensures mapLongRangeFinallyPathIds == old(mapLongRangeFinallyPathIds)
    {
      var s := entry.statement;
      var source := BlockNodes(s, entry.tailExprents);
      lstSucc := DirectAll(s.succs);
      if s.kind.lastIsIf {
        if |lstSucc| == 0 {
          return Failure(IOOBE), lstSucc;
        }
        mapPosIfBranch := mapPosIfBranch[source := lstSucc[0].destination];
      }
      res := Success(Some(source));
    }

    /** The nodes of a basic block: its own node, and with tail expressions a `_tail` node
      * under the negated id reached by a regular edge; `source` is the last of them. */
    method BlockNodes(s: Statement, tailExprents: Option<seq<Exprent>>) returns (source: NodeId)
      requires Flattening()
      modifies this, graph
      ensures Flattening()
      ensures source == if tailExprents.Some? then NodeId(s.id, Tail) else NodeId(s.id, Direct)
      ensures mapDestinationNodes == BlockDestinations(old(mapDestinationNodes), s, tailExprents.Some?)
      ensures var node := NodeId(s.id, Direct);
        (tailExprents.Some? ==>
          graph.nodes == old(graph.nodes)[node := BlockExprents(s)][source := tailExprents.value] &&
          listEdges == old(listEdges) + [Edge(node, -s.id, TYPE_REGULAR)]) &&
        (tailExprents.None? ==>
          graph.nodes == old(graph.nodes)[node := BlockExprents(s)] && listEdges == old(listEdges))
      ensures mapPosIfBranch == old(mapPosIfBranch)
      ensures mapShortRangeFinallyPathIds == old(mapShortRangeFinallyPathIds)
      ensures mapLongRangeFinallyPathIds == old(mapLongRangeFinallyPathIds)
    {
      var node := NodeId(s.id, Direct);
      AddNode(node, BlockExprents(s));
      PutDest(s.id, DestNodePair(node, None));
      source := node;
      if tailExprents.Some? {
        var tail := NodeId(s.id, Tail);
        AddNode(tail, tailExprents.value);
        PutDest(-s.id, DestNodePair(tail, None));
        AddEdge(Edge(node, -s.id, TYPE_REGULAR));
        source := tail;
      }
    }

    /** The finally stack a try or catch-all statement gives its `k`-th child: inside a
      * `finally` statement, the protected body gets a protected entry and each handler a
      * handler entry whose exit is a break to the dummy exit. */
    function ChildStack(s: Statement, k: int, stack: seq<StackEntry>): seq<StackEntry>
      requires 0 <= k < |s.stats| && root.kind.Root?
    {
      if s.kind.CatchAll? && s.kind.isFinally then
        var st := s.stats[k];
        stack + [if k == 0 then Protected(s)
                 else Handler(s, TYPE_BREAK, root.kind.dummyExit, st.id, st.id, NodeId(s.id, Try), NodeId(s.id, Try), true)]
      else stack
    }

    function TryExprents(s: Statement): seq<Exprent>
    {
      if s.kind.TryCatch? && s.kind.hasResources then s.kind.resources else []
    }

    /** `processTryCatchStatement`: a `_try` node with a regular edge to each child, and one
      * stack entry per child, in order, to be processed next. */
    method ProcessTryCatch(entry: StatementStackEntry) returns (pushed: seq<StatementStackEntry>)
      requires Flattening() && (entry.statement.kind.TryCatch? || entry.statement.kind.CatchAll?)
      modifies this, graph
      ensures Flattening()
      ensures var s := entry.statement; var firstnd := NodeId(s.id, Try);
        graph.nodes == old(graph.nodes)[firstnd := TryExprents(s)] &&
        mapDestinationNodes == old(mapDestinationNodes)[s.id := DestNodePair(firstnd, None)] &&
        |listEdges| == |old(listEdges)| + |s.stats| && listEdges[..|old(listEdges)|] == old(listEdges) &&
        (forall k :: 0 <= k < |s.stats| ==> listEdges[|old(listEdges)| + k] == Edge(firstnd, s.stats[k].id, TYPE_REGULAR)) &&
        |pushed| == |s.stats| &&
        (forall k :: 0 <= k < |s.stats| ==> pushed[k] == NewEntry(s.stats[k], ChildStack(s, k, entry.stackFinally), None))
      ensures forall k :: 0 <= k < |pushed| ==> GoodEntry(pushed[k])
      ensures mapPosIfBranch == old(mapPosIfBranch)
      ensures mapShortRangeFinallyPathIds == old(mapShortRangeFinallyPathIds)
      ensures mapLongRangeFinallyPathIds == old(mapLongRangeFinallyPathIds)
    {
      var s := entry.statement;
      var firstnd := NodeId(s.id, Try);
      AddNode(firstnd, TryExprents(s));
      PutDest(s.id, DestNodePair(firstnd, None));
      ghost var edges0 := listEdges;
      pushed := [];
      var k := 0;
      while k < |s.stats|
        invariant 0 <= k <= |s.stats|
        invariant Flattening() && firstnd in graph.nodes
        invariant graph.nodes == old(graph.nodes)[firstnd := TryExprents(s)]
        invariant mapDestinationNodes == old(mapDestinationNodes)[s.id := DestNodePair(firstnd, None)]
        invariant |listEdges| == |edges0| + k && listEdges[..|edges0|] == edges0
        invariant forall j :: 0 <= j < k ==> listEdges[|edges0| + j] == Edge(firstnd, s.stats[j].id, TYPE_REGULAR)
        invariant |pushed| == k
        invariant forall j :: 0 <= j < k ==> pushed[j] == NewEntry(s.stats[j], ChildStack(s, j, entry.stackFinally), None)
        invariant mapPosIfBranch == old(mapPosIfBranch)
        invariant mapShortRangeFinallyPathIds == old(mapShortRangeFinallyPathIds)
        invariant mapLongRangeFinallyPathIds == old(mapLongRangeFinallyPathIds)
      {
        var st := s.stats[k];
        AddEdge(Edge(firstnd, st.id, TYPE_REGULAR));
        var stack := entry.stackFinally;
        if s.kind.CatchAll? && s.kind.isFinally {
          if k == 0 {
            stack := stack + [Protected(s)];
          } else {
            stack := stack + [Handler(s, TYPE_BREAK, root.kind.dummyExit, st.id, st.id, firstnd, firstnd, true)];
          }
        }
        pushed := pushed + [NewEntry(st, stack, None)];
        k := k + 1;
      }
    }

    /** The loop over `listEdges` in `processDoStatement`: is a continue edge to `statId`
      * already recorded? */
    method HasContinueEdgeTo(statId: int) returns (found: bool)
      ensures found <==> exists k :: 0 <= k < |listEdges| && listEdges[k].statId == statId && listEdges[k].edgeType == TYPE_CONTINUE
    {
      found := false;
      var k := 0;
      while k < |listEdges|
        invariant 0 <= k <= |listEdges|
        invariant forall j :: 0 <= j < k ==> !(listEdges[j].statId == statId && listEdges[j].edgeType == TYPE_CONTINUE)
      {
        if listEdges[k].statId == statId && listEdges[k].edgeType == TYPE_CONTINUE {
          return true;
        }
        k := k + 1;
      }
    }

    /** The continue edge a do-while or for loop adds from its body's entry, unless one is
      * already recorded. */
    function ContinueEdge(nd: NodeId, id: int, edges: seq<Edge>): seq<Edge>
    {
      if exists k :: 0 <= k < |edges| && edges[k].statId == id && edges[k].edgeType == TYPE_CONTINUE then []
      else [Edge(nd, id, TYPE_CONTINUE)]
    }

    /** `processDoStatement`.  On the first visit the body is queued before the loop itself;
      * on the second the loop's nodes and edges are made from the body's entry node. */
    method ProcessDo(entry: StatementStackEntry) returns (res: Result<Option<NodeId>>, lstSucc: seq<StatEdge>, pushed: seq<StatementStackEntry>)
      requires Flattening() && entry.statement.kind.Do? && GoodEntry(entry)
      modifies this, graph
      ensures Flattening()
      ensures forall k :: 0 <= k < |pushed| ==> GoodEntry(pushed[k])
      ensures res.Success? && res.value.Some? ==> res.value.value in graph.nodes
      ensures mapPosIfBranch == old(mapPosIfBranch)
      ensures mapShortRangeFinallyPathIds == old(mapShortRangeFinallyPathIds)
      ensures mapLongRangeFinallyPathIds == old(mapLongRangeFinallyPathIds)
      ensures var s := entry.statement;
        entry.statementIndex != 0 && |s.stats| > 0 && s.stats[0].id in old(mapDestinationNodes) && res.Success? ==>
          mapDestinationNodes == DoDestinations(old(mapDestinationNodes), s, old(mapDestinationNodes)[s.stats[0].id].direct)
      // first visit: the body, then the loop again
      ensures var s := entry.statement;
        entry.statementIndex == 0 ==>
          (|s.stats| == 0 ==> res == Failure(NPE)) &&
          (|s.stats| > 0 ==>
            res == Success(None) && lstSucc == [] &&
            pushed == [NewEntry(s.stats[0], entry.stackFinally, None), entry.(statementIndex := 1)] &&
            graph.nodes == old(graph.nodes) && mapDestinationNodes == old(mapDestinationNodes) && listEdges == old(listEdges))
      // second visit, body not flattened
      ensures var s := entry.statement;
        entry.statementIndex != 0 && (|s.stats| == 0 || s.stats[0].id !in old(mapDestinationNodes)) ==>
          res == Failure(NPE)
      // second visit of a plain `do` loop: no node, both destinations are the body's entry
      ensures var s := entry.statement;
        entry.statementIndex != 0 && |s.stats| > 0 && s.stats[0].id in old(mapDestinationNodes) && s.kind.loopType == LoopDo ==>
          var nd := old(mapDestinationNodes)[s.stats[0].id].direct;
          res == Success(None) && lstSucc == [] && pushed == [] &&
          graph.nodes == old(graph.nodes) && listEdges == old(listEdges) &&
          mapDestinationNodes == old(mapDestinationNodes)[s.id := DestNodePair(nd, Some(nd))]
      // second visit of the other loops: one direct edge leaves from the condition node
      ensures var s := entry.statement; var direct := DirectAll(s.succs);
        entry.statementIndex != 0 && |s.stats| > 0 && s.stats[0].id in old(mapDestinationNodes) && s.kind.loopType != LoopDo ==>
          pushed == [] &&
          (|direct| == 0 ==> res == Failure(IOOBE)) &&
          (|direct| > 0 ==> lstSucc == [direct[0]] && res == Success(Some(NodeId(s.id, Cond))))
      ensures var s := entry.statement; var k := s.kind; var cond := NodeId(s.id, Cond);
        entry.statementIndex != 0 && |s.stats| > 0 && s.stats[0].id in old(mapDestinationNodes) && k.loopType == LoopWhile &&
        |DirectAll(s.succs)| > 0 ==>
          graph.nodes == old(graph.nodes)[cond := OptionList(k.cond)] &&
          listEdges == old(listEdges) + [Edge(cond, s.stats[0].id, TYPE_REGULAR)] &&
          mapDestinationNodes == old(mapDestinationNodes)[s.id := DestNodePair(cond, Some(cond))]
      ensures var s := entry.statement; var k := s.kind; var cond := NodeId(s.id, Cond);
        entry.statementIndex != 0 && |s.stats| > 0 && s.stats[0].id in old(mapDestinationNodes) && k.loopType == LoopDoWhile &&
        |DirectAll(s.succs)| > 0 ==>
          var nd := old(mapDestinationNodes)[s.stats[0].id].direct;
          var edges1 := old(listEdges) + [Edge(cond, s.stats[0].id, TYPE_REGULAR)];
          graph.nodes == old(graph.nodes)[cond := OptionList(k.cond)] &&
          listEdges == edges1 + ContinueEdge(nd, s.id, edges1) &&
          mapDestinationNodes == old(mapDestinationNodes)[s.id := DestNodePair(nd, Some(cond))]
      ensures var s := entry.statement; var k := s.kind;
        var cond, init, inc := NodeId(s.id, Cond), NodeId(s.id, Init), NodeId(s.id, Inc);
        entry.statementIndex != 0 && |s.stats| > 0 && s.stats[0].id in old(mapDestinationNodes) &&
        (k.loopType == LoopFor || k.loopType == LoopForEach) && |DirectAll(s.succs)| > 0 ==>
          var nd := old(mapDestinationNodes)[s.stats[0].id].direct;
          var edges1 := old(listEdges) + [Edge(cond, s.stats[0].id, TYPE_REGULAR), Edge(init, -s.id, TYPE_REGULAR), Edge(inc, -s.id, TYPE_REGULAR)];
          graph.nodes == old(graph.nodes)[init := OptionList(k.init)][cond := if k.loopType == LoopForEach then [] else OptionList(k.cond)][inc := OptionList(k.inc)] &&
          listEdges == edges1 + ContinueEdge(nd, s.id, edges1) &&
          mapDestinationNodes == old(mapDestinationNodes)[s.id := DestNodePair(init, Some(inc))][-s.id := DestNodePair(cond, None)]
    {
      var s := entry.statement;
      var k := s.kind;
      lstSucc, pushed := [], [];
      if entry.statementIndex == 0 {
        if |s.stats| == 0 {
          return Failure(NPE), lstSucc, pushed;
        }
        pushed := [NewEntry(s.stats[0], entry.stackFinally, None), entry.(statementIndex := 1)];
        return Success(None), lstSucc, pushed;
      }
      if |s.stats| == 0 || s.stats[0].id !in mapDestinationNodes {
        return Failure(NPE), lstSucc, pushed;
      }
      var firstId := s.stats[0].id;
      var nd := mapDestinationNodes[firstId].direct;
      DoDestinationsByType(old(mapDestinationNodes), s, nd);
      if k.loopType == LoopDo {
        PutDest(s.id, DestNodePair(nd, Some(nd)));
        return Success(None), lstSucc, pushed;
      }
      var direct := DirectAll(s.succs);
      if |direct| == 0 {
        return Failure(IOOBE), lstSucc, pushed;
      }
      lstSucc := [direct[0]];
      if k.loopType == LoopWhile || k.loopType == LoopDoWhile {
        ConditionLoop(s, nd);
      } else {
        CountingLoop(s, nd);
      }
      res := Success(Some(NodeId(s.id, Cond)));
    }

    /** The second visit of a while or do-while loop: a `_cond` node carrying the condition,
      * a regular edge from it to the body; a while loop is entered and continued at the
      * condition, a do-while loop entered at the body and continued at the condition, with a
      * continue edge from the body's entry unless one is already recorded. */
    method ConditionLoop(s: Statement, nd: NodeId)
      requires Flattening() && s.kind.Do? && (s.kind.loopType == LoopWhile || s.kind.loopType == LoopDoWhile)
      requires |s.stats| > 0 && nd in graph.nodes
      modifies this, graph
      ensures Flattening() && NodeId(s.id, Cond) in graph.nodes
      ensures var k := s.kind; var cond := NodeId(s.id, Cond);
        var edges1 := old(listEdges) + [Edge(cond, s.stats[0].id, TYPE_REGULAR)];
        graph.nodes == old(graph.nodes)[cond := OptionList(k.cond)] &&
        (k.loopType == LoopWhile ==>
          listEdges == edges1 &&
          mapDestinationNodes == old(mapDestinationNodes)[s.id := DestNodePair(cond, Some(cond))]) &&
        (k.loopType == LoopDoWhile ==>
          listEdges == edges1 + ContinueEdge(nd, s.id, edges1) &&
          mapDestinationNodes == old(mapDestinationNodes)[s.id := DestNodePair(nd, Some(cond))])
      ensures mapPosIfBranch == old(mapPosIfBranch)
      ensures mapShortRangeFinallyPathIds == old(mapShortRangeFinallyPathIds)
      ensures mapLongRangeFinallyPathIds == old(mapLongRangeFinallyPathIds)
    {
      var k := s.kind;
      var cond := NodeId(s.id, Cond);
      AddNode(cond, OptionList(k.cond));
      AddEdge(Edge(cond, s.stats[0].id, TYPE_REGULAR));
      if k.loopType == LoopWhile {
        PutDest(s.id, DestNodePair(cond, Some(cond)));
      } else {
        PutDest(s.id, DestNodePair(nd, Some(cond)));
        var found := HasContinueEdgeTo(s.id);
        if !found {
          AddEdge(Edge(nd, s.id, TYPE_CONTINUE));
        }
      }
    }

    /** The second visit of a for or foreach loop: `_init`, `_cond` (without expressions for
      * a foreach) and `_inc` nodes; the loop is entered at the init node and continued at the
      * increment node, the negated id leads to the condition; regular edges cond -> body,
      * init -> cond and inc -> cond, and a continue edge as for a do-while loop. */
    method CountingLoop(s: Statement, nd: NodeId)
      requires Flattening() && s.kind.Do? && (s.kind.loopType == LoopFor || s.kind.loopType == LoopForEach)
      requires |s.stats| > 0 && nd in graph.nodes
      modifies this, graph
      ensures Flattening() && NodeId(s.id, Cond) in graph.nodes
      ensures var k := s.kind;
        var cond, init, inc := NodeId(s.id, Cond), NodeId(s.id, Init), NodeId(s.id, Inc);
        var edges1 := old(listEdges) + [Edge(cond, s.stats[0].id, TYPE_REGULAR), Edge(init, -s.id, TYPE_REGULAR), Edge(inc, -s.id, TYPE_REGULAR)];
        listEdges == edges1 + ContinueEdge(nd, s.id, edges1)
      ensures var k := s.kind;
        var cond, init, inc := NodeId(s.id, Cond), NodeId(s.id, Init), NodeId(s.id, Inc);
        graph.nodes == old(graph.nodes)[init := OptionList(k.init)][cond := if k.loopType == LoopForEach then [] else OptionList(k.cond)][inc := OptionList(k.inc)]
      ensures var cond, init, inc := NodeId(s.id, Cond), NodeId(s.id, Init), NodeId(s.id, Inc);
        mapDestinationNodes == old(mapDestinationNodes)[s.id := DestNodePair(init, Some(inc))][-s.id := DestNodePair(cond, None)]
      ensures mapPosIfBranch == old(mapPosIfBranch)
      ensures mapShortRangeFinallyPathIds == old(mapShortRangeFinallyPathIds)
      ensures mapLongRangeFinallyPathIds == old(mapLongRangeFinallyPathIds)
    {
      var cond, init, inc := NodeId(s.id, Cond), NodeId(s.id, Init), NodeId(s.id, Inc);
      CountingLoopNodes(s);
      AddEdge(Edge(cond, s.stats[0].id, TYPE_REGULAR));
      AddEdge(Edge(init, -s.id, TYPE_REGULAR));
      AddEdge(Edge(inc, -s.id, TYPE_REGULAR));
      assert listEdges == old(listEdges) + [Edge(cond, s.stats[0].id, TYPE_REGULAR), Edge(init, -s.id, TYPE_REGULAR), Edge(inc, -s.id, TYPE_REGULAR)];
      var found := HasContinueEdgeTo(s.id);
      if !found {
        AddEdge(Edge(nd, s.id, TYPE_CONTINUE));
      }
    }

    /** The nodes of a for or foreach loop and its two destinations. */
    method CountingLoopNodes(s: Statement)
      requires Flattening() && s.kind.Do?
      modifies this, graph
      ensures Flattening()
      ensures var k := s.kind;
        var cond, init, inc := NodeId(s.id, Cond), NodeId(s.id, Init), NodeId(s.id, Inc);
        graph.nodes == old(graph.nodes)[init := OptionList(k.init)][cond := if k.loopType == LoopForEach then [] else OptionList(k.cond)][inc := OptionList(k.inc)]
      ensures var cond, init, inc := NodeId(s.id, Cond), NodeId(s.id, Init), NodeId(s.id, Inc);
        mapDestinationNodes == old(mapDestinationNodes)[s.id := DestNodePair(init, Some(inc))][-s.id := DestNodePair(cond, None)]
      ensures listEdges == old(listEdges) && mapPosIfBranch == old(mapPosIfBranch)
      ensures mapShortRangeFinallyPathIds == old(mapShortRangeFinallyPathIds)
      ensures mapLongRangeFinallyPathIds == old(mapLongRangeFinallyPathIds)
    {
      var k := s.kind;
      var cond, init, inc := NodeId(s.id, Cond), NodeId(s.id, Init), NodeId(s.id, Inc);
      AddNode(init, OptionList(k.init));
      AddNode(cond, if k.loopType == LoopForEach then [] else OptionList(k.cond));
      AddNode(inc, OptionList(k.inc));
      PutDest(s.id, DestNodePair(init, Some(inc)));
      PutDest(-s.id, DestNodePair(cond, None));
    }

    /** The number of children `processOtherStatement` visits: a synchronized statement's
      * handler is excluded. */
    function VisitCount(s: Statement): int
    {
      if s.kind.Synchronized? then 2 else |s.stats|
    }

    /** The tail node an if statement's edges leave from: `graph.nodes.getWithKey(node.id +
      * "_tail")`, which by `TailName` exists only for a statement's own node. */
    function TailOf(node: NodeId): Option<NodeId>
      reads graph
    {
      if node.role == Direct && NodeId(node.stat, Tail) in graph.nodes then Some(NodeId(node.stat, Tail)) else None
    }

    /** `processOtherStatement`: each child in turn is queued before the statement itself
      * (the first child of an if, switch or synchronized statement with its head expression
      * as tail); after the last, the statement's destination is its first child's node, and a
      * plain if statement leaves by its single direct edge from its head's tail node. */
    method ProcessOther(entry: StatementStackEntry) returns (res: Result<Option<NodeId>>, lstSucc: seq<StatEdge>, pushed: seq<StatementStackEntry>)
      requires Flattening() && GoodEntry(entry)
      modifies this, graph
      ensures Flattening()
      ensures forall k :: 0 <= k < |pushed| ==> GoodEntry(pushed[k])
      ensures res.Success? && res.value.Some? ==> res.value.value in graph.nodes
      ensures graph.nodes == old(graph.nodes) && listEdges == old(listEdges)
      ensures mapPosIfBranch == old(mapPosIfBranch)
      ensures mapShortRangeFinallyPathIds == old(mapShortRangeFinallyPathIds)
      ensures mapLongRangeFinallyPathIds == old(mapLongRangeFinallyPathIds)
      ensures var s := entry.statement; var idx := entry.statementIndex; var head := HeadOf(s.kind);
        idx < VisitCount(s) ==>
          lstSucc == [] && mapDestinationNodes == old(mapDestinationNodes) &&
          (idx >= |s.stats| ==> res == Failure(IOOBE)) &&
          (idx < |s.stats| ==>
            res == Success(None) &&
            pushed == [NewEntry(s.stats[idx], entry.stackFinally, if idx == 0 && head.Some? then Some([head.value]) else None),
                       entry.(statementIndex := idx + 1)])
      ensures var s := entry.statement; var idx := entry.statementIndex;
        idx > VisitCount(s) ==> res == Success(None) && lstSucc == [] && pushed == [] && mapDestinationNodes == old(mapDestinationNodes)
      ensures var s := entry.statement;
        entry.statementIndex == VisitCount(s) && (|s.stats| == 0 || s.stats[0].id !in old(mapDestinationNodes)) ==>
          res == Failure(NPE) && pushed == []
      ensures var s := entry.statement; var direct := DirectAll(s.succs);
        entry.statementIndex == VisitCount(s) && |s.stats| > 0 && s.stats[0].id in old(mapDestinationNodes) ==>
          var node := old(mapDestinationNodes)[s.stats[0].id].direct;
          var leaves := s.kind.If? && !s.kind.isIfElse && |s.succs| > 0;
          pushed == [] &&
          mapDestinationNodes == old(mapDestinationNodes)[s.id := DestNodePair(node, None)] &&
          (leaves && |direct| == 0 ==> res == Failure(IOOBE)) &&
          (leaves && |direct| > 0 ==>
            lstSucc == [direct[0]] && res == Success(if s.kind.head.None? then Some(node) else TailOf(node))) &&
          (!leaves ==> res == Success(None) && lstSucc == [])
    {
      var s := entry.statement;
      var idx := entry.statementIndex;
      lstSucc, pushed := [], [];
      var statsize := VisitCount(s);
      if idx > statsize {
        return Success(None), lstSucc, pushed;
      }
      var head := HeadOf(s.kind);
      if idx < statsize {
        if idx >= |s.stats| {
          return Failure(IOOBE), lstSucc, pushed;
        }
        var tail := if idx == 0 && head.Some? then Some([head.value]) else None;
        pushed := [NewEntry(s.stats[idx], entry.stackFinally, tail), entry.(statementIndex := idx + 1)];
        return Success(None), lstSucc, pushed;
      }
      if |s.stats| == 0 || s.stats[0].id !in mapDestinationNodes {
        return Failure(NPE), lstSucc, pushed;
      }
      var node := mapDestinationNodes[s.stats[0].id].direct;
      PutDest(s.id, DestNodePair(node, None));
      if s.kind.If? && !s.kind.isIfElse && |s.succs| > 0 {
        var direct := DirectAll(s.succs);
        if |direct| == 0 {
          return Failure(IOOBE), lstSucc, pushed;
        }
        lstSucc := [direct[0]];
        if head.None? {
          return Success(Some(node)), lstSucc, pushed;
        }
        return Success(TailOf(node)), lstSucc, pushed;
      }
      res := Success(None);
    }

    /** `processStatement`: dispatch on the statement's kind; a general statement is not
      * flattened.  Per kind: where the statement's destination pairs point, which children
      * are queued, and which node its edges leave from. */
    method ProcessStatement(entry: StatementStackEntry) returns (res: Result<Option<NodeId>>, lstSucc: seq<StatEdge>, pushed: seq<StatementStackEntry>)
      requires Flattening() && GoodEntry(entry)
      modifies this, graph
      ensures Flattening()
      ensures forall k :: 0 <= k < |pushed| ==> GoodEntry(pushed[k])
      ensures res.Success? && res.value.Some? ==> res.value.value in graph.nodes
      ensures mapShortRangeFinallyPathIds == old(mapShortRangeFinallyPathIds)
      ensures mapLongRangeFinallyPathIds == old(mapLongRangeFinallyPathIds)
      ensures entry.statement.kind.General? ==> res == Success(None) && pushed == [] && lstSucc == []
      // a basic block: its node (and tail node), leaving from the tail when there is one
      ensures var s := entry.statement;
        s.kind.BasicBlock? ==>
          pushed == [] && lstSucc == DirectAll(s.succs) &&
          mapDestinationNodes == BlockDestinations(old(mapDestinationNodes), s, entry.tailExprents.Some?) &&
          (res.Success? ==> res.value == Some(if entry.tailExprents.Some? then NodeId(s.id, Tail) else NodeId(s.id, Direct)))
      // a try or catch-all: the `_try` node, then every child with its finally stack
      ensures var s := entry.statement;
        s.kind.TryCatch? || s.kind.CatchAll? ==>
          res == Success(None) && lstSucc == [] &&
          mapDestinationNodes == old(mapDestinationNodes)[s.id := DestNodePair(NodeId(s.id, Try), None)] &&
          |pushed| == |s.stats| &&
          (forall k :: 0 <= k < |s.stats| ==> pushed[k] == NewEntry(s.stats[k], ChildStack(s, k, entry.stackFinally), None))
      // a loop: the body first, then the loop's destinations from the body's entry
      ensures var s := entry.statement;
        s.kind.Do? && entry.statementIndex == 0 && |s.stats| > 0 ==>
          res == Success(None) && mapDestinationNodes == old(mapDestinationNodes) &&
          pushed == [NewEntry(s.stats[0], entry.stackFinally, None), entry.(statementIndex := 1)]
      ensures var s := entry.statement;
        s.kind.Do? && entry.statementIndex != 0 && |s.stats| > 0 && s.stats[0].id in old(mapDestinationNodes) &&
        res.Success? ==>
          pushed == [] &&
          mapDestinationNodes == DoDestinations(old(mapDestinationNodes), s, old(mapDestinationNodes)[s.stats[0].id].direct) &&
          (s.kind.loopType != LoopDo ==> res.value == Some(NodeId(s.id, Cond)))
      // any other statement: each child in turn, then the first child's node
      ensures var s := entry.statement; var idx := entry.statementIndex;
        OtherKind(s.kind) && idx < VisitCount(s) && idx < |s.stats| ==>
          res == Success(None) && mapDestinationNodes == old(mapDestinationNodes) &&
          pushed == [NewEntry(s.stats[idx], entry.stackFinally, if idx == 0 && HeadOf(s.kind).Some? then Some([HeadOf(s.kind).value]) else None),
                     entry.(statementIndex := idx + 1)]
      ensures var s := entry.statement;
        OtherKind(s.kind) && entry.statementIndex == VisitCount(s) && |s.stats| > 0 && s.stats[0].id in old(mapDestinationNodes) ==>
          pushed == [] &&
          mapDestinationNodes == old(mapDestinationNodes)[s.id := DestNodePair(old(mapDestinationNodes)[s.stats[0].id].direct, None)]
    {
      var k := entry.statement.kind;
      if k.BasicBlock? {
        res, lstSucc := ProcessBasicBlock(entry);
        pushed := [];
      } else if k.TryCatch? || k.CatchAll? {
        pushed := ProcessTryCatch(entry);
        res, lstSucc := Success(None), [];
      } else if k.Do? {
        res, lstSucc, pushed := ProcessDo(entry);
      } else if k.General? {
        res, lstSucc, pushed := Success(None), [], [];
      } else {
        res, lstSucc, pushed := ProcessOther(entry);
      }
    }

    // -------------------------------------------------------------------------------------
    // saveEdge and the main loop

    /** `saveEdge`: the edge is collected unless it is a finally exit; a path through a
      * finally handler is recorded under the source node. */
    method SaveEdge(source: NodeId, save: Save)
      requires Flattening() && source in graph.nodes && SaveOk(save)
      modifies this
      ensures Flattening()
      ensures listEdges == old(listEdges) + if save.edgeType != TYPE_FINALLYEXIT then [Edge(source, save.destination, save.edgeType)] else []
      ensures mapShortRangeFinallyPathIds == AddShort(old(mapShortRangeFinallyPathIds), source, save)
      ensures mapLongRangeFinallyPathIds == AddLong(old(mapLongRangeFinallyPathIds), source, save)
      ensures mapDestinationNodes == old(mapDestinationNodes) && mapPosIfBranch == old(mapPosIfBranch)
    {
      if save.edgeType != TYPE_FINALLYEXIT {
        AddEdge(Edge(source, save.destination, save.edgeType));
      }
      mapShortRangeFinallyPathIds := AddShort(mapShortRangeFinallyPathIds, source, save);
      mapLongRangeFinallyPathIds := AddLong(mapLongRangeFinallyPathIds, source, save);
    }

    /** The short-range record a save adds under its source node, if any. */
    static function AddShort(m: map<NodeId, seq<ShortPath>>, source: NodeId, save: Save): (r: map<NodeId, seq<ShortPath>>)
      requires SaveOk(save)
      ensures save.shortSource.None? ==> r == m
      ensures save.shortSource.Some? ==>
        source in r && |r[source]| > 0 &&
        r[source][|r[source]| - 1] == ShortPath(save.shortSource.value, save.destination, save.shortEntry.value, save.monitorPath, save.edgeType == TYPE_CONTINUE) &&
        r[source][..|r[source]| - 1] == (if source in m then m[source] else [])
      ensures forall n :: n != source ==> (n in r <==> n in m) && (n in m ==> r[n] == m[n])
    {
      if save.shortSource.None? then m
      else
        var old_ := if source in m then m[source] else [];
        m[source := old_ + [ShortPath(save.shortSource.value, save.destination, save.shortEntry.value, save.monitorPath, save.edgeType == TYPE_CONTINUE)]]
    }

    /** The long-range record a save adds under its source node, if any. */
    static function AddLong(m: map<NodeId, seq<LongPath>>, source: NodeId, save: Save): (r: map<NodeId, seq<LongPath>>)
      requires SaveOk(save)
      ensures save.shortSource.None? ==> r == m
      ensures save.shortSource.Some? ==>
        source in r && |r[source]| > 0 &&
        r[source][|r[source]| - 1] == LongPath(save.longSource, save.destination, save.longEntry.value, save.edgeType == TYPE_CONTINUE) &&
        r[source][..|r[source]| - 1] == (if source in m then m[source] else [])
      ensures forall n :: n != source ==> (n in r <==> n in m) && (n in m ==> r[n] == m[n])
    {
      if save.shortSource.None? then m
      else
        var old_ := if source in m then m[source] else [];
        m[source := old_ + [LongPath(save.longSource, save.destination, save.longEntry.value, save.edgeType == TYPE_CONTINUE)]]
    }

    /** The inner loop of `flattenStatement` for one edge: walks the finally stack as `Route`
      * does and makes the `saveEdge` call it ends with. */
    method RouteEdge(source: NodeId, edge: StatEdge, stackFinally: seq<StackEntry>) returns (res: Result<Option<(Statement, seq<StackEntry>)>>)
      requires Flattening() && source in graph.nodes
      modifies this
      ensures Flattening()
      ensures var r := Route(source, stackFinally, StartWalk(source, edge));
        r.Failure? ==> res == Failure(r.error) && listEdges == old(listEdges)
      ensures var r := Route(source, stackFinally, StartWalk(source, edge));
        r.Success? ==>
          var save := r.value.save;
          res == Success(r.value.redirect) &&
          listEdges == old(listEdges) + (if save.edgeType != TYPE_FINALLYEXIT then [Edge(source, save.destination, save.edgeType)] else []) &&
          mapShortRangeFinallyPathIds == AddShort(old(mapShortRangeFinallyPathIds), source, save) &&
          mapLongRangeFinallyPathIds == AddLong(old(mapLongRangeFinallyPathIds), source, save)
      ensures mapDestinationNodes == old(mapDestinationNodes) && mapPosIfBranch == old(mapPosIfBranch)
    {
      var stack := stackFinally;
      var w := StartWalk(source, edge);
      while true
        invariant WalkOk(w)
        invariant Route(source, stack, w) == Route(source, stackFinally, StartWalk(source, edge))
        invariant listEdges == old(listEdges) && mapDestinationNodes == old(mapDestinationNodes)
        invariant mapShortRangeFinallyPathIds == old(mapShortRangeFinallyPathIds)
        invariant mapLongRangeFinallyPathIds == old(mapLongRangeFinallyPathIds)
        invariant mapPosIfBranch == old(mapPosIfBranch)
        decreases |stack|
      {
        if |stack| == 0 {
          SaveEdge(source, SaveOf(w));
          return Success(None);
        }
        var entry := stack[|stack| - 1];
        match entry {
          case Handler(c, et, d, se, le, ss, ls, fep) =>
            if w.edgeType == TYPE_FINALLYEXIT {
              stack := stack[..|stack| - 1];
              w := Walk(et, d, ss, ls, Some(se), Some(le), c.kind.CatchAll? && c.kind.monitor.Some? && fep, true);
            } else if !ContainsStrict(c, w.destination) {
              stack := stack[..|stack| - 1];
            } else {
              SaveEdge(source, SaveOf(w));
              return Success(None);
            }
          case Protected(c) =>
            if !ContainsStrict(c, w.destination) {
              if |c.stats| < 2 {
                return Failure(NPE);
              }
              var h := c.stats[1];
              SaveEdge(source, SaveOf(w.(destination := h.id, edgeType := TYPE_REGULAR)));
              var swapped := Handler(c, w.edgeType, w.destination, h.id,
                                     if w.longEntry.Some? then w.longEntry.value else h.id,
                                     source, w.longSource, false);
              return Success(Some((h, stack[..|stack| - 1] + [swapped])));
            } else {
              SaveEdge(source, SaveOf(w));
              return Success(None);
            }
        }
      }
    }

    /** `flattenStatement`: processes the statement stack until it is empty.  Each popped
      * entry is processed; when it yields a source node, its successor edges are routed in
      * order, and an edge that leaves a protected body queues the handler (and the entry,
      * with the edges still to route) and abandons the rest.  An entry queued that way is
      * skipped when it comes back, as the code's first test does. */
    method FlattenStatement(fuel: nat) returns (r: Outcome)
      requires Flattening()
      modifies this, graph
      ensures Flattening()
    {
      var stack := [NewEntry(root, [], None)];
      var f := fuel;
      while |stack| > 0
        invariant Flattening()
        invariant forall k :: 0 <= k < |stack| ==> GoodEntry(stack[k])
        decreases f
      {
        if f == 0 {
          return Fail(OUT_OF_FUEL);
        }
        f := f - 1;
        var statEntry := stack[0];
        stack := stack[1..];
        if statEntry.succEdges.Some? {
          continue;
        }
        var res, lstSucc, pushed := ProcessStatement(statEntry);
        if res.Failure? {
          return Fail(res.error);
        }
        stack := pushed + stack;
        if res.value.Some? {
          var source := res.value.value;
          var edgeindex := statEntry.edgeIndex;
          var redirected := false;
          while edgeindex < |lstSucc| && !redirected
            invariant Flattening() && source in graph.nodes && edgeindex >= 0
            invariant forall k :: 0 <= k < |stack| ==> GoodEntry(stack[k])
            decreases |lstSucc| - edgeindex
          {
            var routed := RouteEdge(source, lstSucc[edgeindex], statEntry.stackFinally);
            if routed.Failure? {
              return Fail(routed.error);
            }
            if routed.value.Some? {
              var (handler, handlerStack) := routed.value.value;
              var resumed := statEntry.(edgeIndex := edgeindex + 1, succEdges := Some(lstSucc));
              stack := [NewEntry(handler, handlerStack, None), resumed] + stack;
              redirected := true;
            }
            edgeindex := edgeindex + 1;
          }
        }
      }
      r := Pass;
    }

    // -------------------------------------------------------------------------------------
    // setEdges

    /** Resolving one short-range path record: `None` where the code dereferences `null`. */
    function ResolveShort(p: ShortPath): Option<(FinallyPathWrapper, NodeId)>
      reads this
    {
      if p.destination !in mapDestinationNodes || p.entry !in mapDestinationNodes then None
      else
        var pair := mapDestinationNodes[p.destination];
        var dest := if p.isContinue then pair.cont else Some(pair.direct);
        if dest.None? then None
        else Some((FinallyPathWrapper(p.source, dest.value, mapDestinationNodes[p.entry].direct), dest.value))
    }

    function ResolveLong(p: LongPath): Option<FinallyPathWrapper>
      reads this
    {
      if p.destination !in mapDestinationNodes || p.entry !in mapDestinationNodes then None
      else
        var pair := mapDestinationNodes[p.destination];
        var dest := if p.isContinue then pair.cont else Some(pair.direct);
        if dest.None? then None
        else Some(FinallyPathWrapper(p.source, dest.value, mapDestinationNodes[p.entry].direct))
    }

    /** The wrappers of a list of short-range records, in order, or `None` if one fails. */
    function ResolveShorts(lst: seq<ShortPath>): (r: Option<seq<FinallyPathWrapper>>)
      reads this
      ensures r.Some? ==> |r.value| == |lst|
    {
      if |lst| == 0 then Some([])
      else
        var init := ResolveShorts(lst[..|lst| - 1]);
        var last := ResolveShort(lst[|lst| - 1]);
        if init.None? || last.None? then None else Some(init.value + [last.value.0])
    }

    function ResolveLongs(lst: seq<LongPath>): (r: Option<seq<FinallyPathWrapper>>)
      reads this
      ensures r.Some? ==> |r.value| == |lst|
    {
      if |lst| == 0 then Some([])
      else
        var init := ResolveLongs(lst[..|lst| - 1]);
        var last := ResolveLong(lst[|lst| - 1]);
        if init.None? || last.None? then None else Some(init.value + [last.value])
    }

    /** The monitor exit a list of short-range records leaves: the destination of the last
      * monitor path in it. */
    function MonitorExit(lst: seq<ShortPath>): Option<NodeId>
      reads this
    {
      if |lst| == 0 then None
      else
        var p := lst[|lst| - 1];
        if p.monitorPath && ResolveShort(p).Some? then Some(ResolveShort(p).value.1)
        else MonitorExit(lst[..|lst| - 1])
    }

    /** The nodes the edges from `a` among `edges` resolve to. */
    ghost function Targets(edges: seq<Edge>, a: NodeId): set<NodeId>
      reads this
    {
      if |edges| == 0 then {}
      else
        var e := edges[|edges| - 1];
        Targets(edges[..|edges| - 1], a) + if e.source == a && Resolve(e).Some? then {Resolve(e).value} else {}
    }

    /** An edge from `n` to a statement other than the positive branch recorded for `n`. */
    ghost predicate NegativeEdge(e: Edge, n: NodeId)
      reads this
    {
      e.source == n && n in mapPosIfBranch && e.statId != mapPosIfBranch[n] && Resolve(e).Some?
    }

    /** The negative branch of `n` after `edges`: where the last negative edge from it
      * leads. */
    ghost function NegTarget(edges: seq<Edge>, n: NodeId): Option<NodeId>
      reads this
    {
      if |edges| == 0 then None
      else if NegativeEdge(edges[|edges| - 1], n) then Resolve(edges[|edges| - 1])
      else NegTarget(edges[..|edges| - 1], n)
    }

    /** `Targets` holds exactly the resolved destinations of the edges from `a`. */
    lemma {:induction false} TargetsMeaning(edges: seq<Edge>, a: NodeId, b: NodeId)
      ensures b in Targets(edges, a) <==> exists k :: 0 <= k < |edges| && edges[k].source == a && Resolve(edges[k]) == Some(b)
    {
      if |edges| > 0 {
        var init := edges[..|edges| - 1];
        TargetsMeaning(init, a, b);
        if b in Targets(init, a) {
          var k :| 0 <= k < |init| && init[k].source == a && Resolve(init[k]) == Some(b);
          assert edges[k] == init[k];
        }
        if exists k :: 0 <= k < |edges| && edges[k].source == a && Resolve(edges[k]) == Some(b) {
          var k :| 0 <= k < |edges| && edges[k].source == a && Resolve(edges[k]) == Some(b);
          if k < |init| {
            assert init[k] == edges[k];
          }
        }
      }
    }

    /** There is no negative branch of `n` exactly when no edge from `n` is negative. */
    lemma {:induction false} NegTargetNone(edges: seq<Edge>, n: NodeId)
      ensures NegTarget(edges, n).None? <==> forall k :: 0 <= k < |edges| ==> !NegativeEdge(edges[k], n)
    {
      if |edges| > 0 {
        var init := edges[..|edges| - 1];
        NegTargetNone(init, n);
        assert forall k :: 0 <= k < |init| ==> init[k] == edges[k];
      }
    }

    /** The negative branch of `n` is where the last negative edge from `n` leads. */
    lemma {:induction false} NegTargetIsLast(edges: seq<Edge>, n: NodeId)
      requires NegTarget(edges, n).Some?
      ensures exists k :: (0 <= k < |edges| && NegativeEdge(edges[k], n) && Resolve(edges[k]) == NegTarget(edges, n) &&
        forall j :: k < j < |edges| ==> !NegativeEdge(edges[j], n))
    {
      var last := |edges| - 1;
      if !NegativeEdge(edges[last], n) {
        var init := edges[..last];
        NegTargetIsLast(init, n);
        var k :| 0 <= k < |init| && NegativeEdge(init[k], n) && Resolve(init[k]) == NegTarget(init, n) &&
          forall j :: k < j < |init| ==> !NegativeEdge(init[j], n);
        assert edges[k] == init[k];
        assert forall j :: k < j < last ==> edges[j] == init[j];
      }
    }

    /** Resolved edges join nodes of the graph. */
    lemma TargetsInGraph(a: NodeId, b: NodeId)
      requires Resolvable() && b in Targets(listEdges, a)
      ensures a in graph.nodes && b in graph.nodes
    {
      TargetsMeaning(listEdges, a, b);
      var k :| 0 <= k < |listEdges| && listEdges[k].source == a && Resolve(listEdges[k]) == Some(b);
      assert listEdges[k] in listEdges;
    }

    /** The first pass of `setEdges`: every collected edge is resolved and linked. */
    method LinkEdges() returns (r: Outcome)
      requires Resolvable() && graph.Unlinked()
      modifies graph
      ensures graph.nodes == old(graph.nodes) && Resolvable()
      ensures graph.mapShortRangeFinallyPaths == map[] && graph.mapLongRangeFinallyPaths == map[]
      ensures graph.mapFinallyMonitorExceptionPathExits == map[] && graph.first == None
      ensures r.Pass? <==> forall e :: e in listEdges ==> Resolve(e).Some?
      ensures r.Pass? ==> graph.Mirrored() && graph.DupFree()
      ensures r.Pass? ==> forall a, b :: b in graph.Succs(a) <==> b in Targets(listEdges, a)
      ensures r.Pass? ==> forall n :: n in graph.mapNegIfBranch <==> NegTarget(listEdges, n).Some?
      ensures r.Pass? ==> forall n :: n in graph.mapNegIfBranch ==> Some(graph.mapNegIfBranch[n]) == NegTarget(listEdges, n)
    {
      var i := 0;
      assert forall a :: graph.Succs(a) == [];
      while i < |listEdges|
        invariant 0 <= i <= |listEdges|
        invariant graph.nodes == old(graph.nodes)
        invariant graph.mapShortRangeFinallyPaths == map[] && graph.mapLongRangeFinallyPaths == map[]
        invariant graph.mapFinallyMonitorExceptionPathExits == map[] && graph.first == None
        invariant graph.Mirrored() && graph.DupFree()
        invariant forall k :: 0 <= k < i ==> Resolve(listEdges[k]).Some?
        invariant forall a, b :: b in graph.Succs(a) <==> b in Targets(listEdges[..i], a)
        invariant forall n :: n in graph.mapNegIfBranch <==> NegTarget(listEdges[..i], n).Some?
        invariant forall n :: n in graph.mapNegIfBranch ==> Some(graph.mapNegIfBranch[n]) == NegTarget(listEdges[..i], n)
      {
        var e := listEdges[i];
        assert e in listEdges;
        if e.statId !in mapDestinationNodes {
          assert Resolve(e).None?;
          return Fail(NPE);
        }
        var pair := mapDestinationNodes[e.statId];
        var dest: NodeId;
        if e.edgeType == TYPE_CONTINUE {
          if pair.cont.None? {
            assert Resolve(e).None?;
            return Fail(NPE);
          }
          dest := pair.cont.value;
        } else {
          dest := pair.direct;
        }
        assert Resolve(e) == Some(dest);
        LinkEdge(e, dest, listEdges[..i]);
        assert listEdges[..i + 1] == listEdges[..i] + [e];
        i := i + 1;
      }
      assert listEdges[..i] == listEdges;
      r := Pass;
    }

    /** One edge of that pass: its source is linked to its destination, and an edge from a
      * node with a positive branch to another statement records the negative branch. */
    method LinkEdge(e: Edge, dest: NodeId, ghost done: seq<Edge>)
      requires Resolve(e) == Some(dest) && graph.Mirrored() && graph.DupFree()
      requires forall a, b :: b in graph.Succs(a) <==> b in Targets(done, a)
      requires forall n :: n in graph.mapNegIfBranch <==> NegTarget(done, n).Some?
      requires forall n :: n in graph.mapNegIfBranch ==> Some(graph.mapNegIfBranch[n]) == NegTarget(done, n)
      modifies graph
      ensures graph.Mirrored() && graph.DupFree()
      ensures graph.nodes == old(graph.nodes) && graph.first == old(graph.first)
      ensures graph.mapShortRangeFinallyPaths == old(graph.mapShortRangeFinallyPaths)
      ensures graph.mapLongRangeFinallyPaths == old(graph.mapLongRangeFinallyPaths)
      ensures graph.mapFinallyMonitorExceptionPathExits == old(graph.mapFinallyMonitorExceptionPathExits)
      ensures forall a, b :: b in graph.Succs(a) <==> b in Targets(done + [e], a)
      ensures forall n :: n in graph.mapNegIfBranch <==> NegTarget(done + [e], n).Some?
      ensures forall n :: n in graph.mapNegIfBranch ==> Some(graph.mapNegIfBranch[n]) == NegTarget(done + [e], n)
    {
      var edges := done + [e];
      assert edges[..|edges| - 1] == done && edges[|edges| - 1] == e;
      graph.Link(e.source, dest);
      if e.source in mapPosIfBranch && e.statId != mapPosIfBranch[e.source] {
        graph.mapNegIfBranch := graph.mapNegIfBranch[e.source := dest];
      }
    }

    /** The inner loop of `setEdges` over one short-range list. */
    method ResolveShortList(lst: seq<ShortPath>) returns (res: Option<seq<FinallyPathWrapper>>, exit: Option<NodeId>)
      ensures res == ResolveShorts(lst)
      ensures res.Some? ==> exit == MonitorExit(lst)
    {
      var acc: seq<FinallyPathWrapper> := [];
      exit := None;
      var k := 0;
      while k < |lst|
        invariant 0 <= k <= |lst|
        invariant ResolveShorts(lst[..k]) == Some(acc) && exit == MonitorExit(lst[..k])
      {
        var p := lst[k];
        assert lst[..k + 1][..k] == lst[..k];
        if p.destination !in mapDestinationNodes || p.entry !in mapDestinationNodes {
          assert ResolveShorts(lst[..k + 1]).None?;
          ResolveShortsPrefix(lst, k + 1);
          return None, None;
        }
        var pair := mapDestinationNodes[p.destination];
        var dest := if p.isContinue then pair.cont else Some(pair.direct);
        if dest.None? {
          assert ResolveShorts(lst[..k + 1]).None?;
          ResolveShortsPrefix(lst, k + 1);
          return None, None;
        }
        var enter := mapDestinationNodes[p.entry].direct;
        acc := acc + [FinallyPathWrapper(p.source, dest.value, enter)];
        if p.monitorPath {
          exit := dest;
        }
        k := k + 1;
      }
      assert lst[..k] == lst;
      res := Some(acc);
    }

    /** A list with a record that cannot be resolved cannot be resolved as a whole. */
    lemma {:induction false} ResolveShortsPrefix(lst: seq<ShortPath>, k: nat)
      requires k <= |lst| && ResolveShorts(lst[..k]).None?
      ensures ResolveShorts(lst).None?
      decreases |lst| - k
    {
      if k < |lst| {
        assert lst[..k + 1][..k] == lst[..k];
        ResolveShortsPrefix(lst, k + 1);
      } else {
        assert lst[..k] == lst;
      }
    }

    /** The inner loop of `setEdges` over one long-range list. */
    method ResolveLongList(lst: seq<LongPath>) returns (res: Option<seq<FinallyPathWrapper>>)
      ensures res == ResolveLongs(lst)
    {
      var acc: seq<FinallyPathWrapper> := [];
      var k := 0;
      while k < |lst|
        invariant 0 <= k <= |lst|
        invariant ResolveLongs(lst[..k]) == Some(acc)
      {
        var p := lst[k];
        assert lst[..k + 1][..k] == lst[..k];
        if p.destination !in mapDestinationNodes || p.entry !in mapDestinationNodes {
          assert ResolveLongs(lst[..k + 1]).None?;
          ResolveLongsPrefix(lst, k + 1);
          return None;
        }
        var pair := mapDestinationNodes[p.destination];
        var dest := if p.isContinue then pair.cont else Some(pair.direct);
        if dest.None? {
          assert ResolveLongs(lst[..k + 1]).None?;
          ResolveLongsPrefix(lst, k + 1);
          return None;
        }
        var enter := mapDestinationNodes[p.entry].direct;
        acc := acc + [FinallyPathWrapper(p.source, dest.value, enter)];
        k := k + 1;
      }
      assert lst[..k] == lst;
      res := Some(acc);
    }

    lemma {:induction false} ResolveLongsPrefix(lst: seq<LongPath>, k: nat)
      requires k <= |lst| && ResolveLongs(lst[..k]).None?
      ensures ResolveLongs(lst).None?
      decreases |lst| - k
    {
      if k < |lst| {
        assert lst[..k + 1][..k] == lst[..k];
        ResolveLongsPrefix(lst, k + 1);
      } else {
        assert lst[..k] == lst;
      }
    }

    /** The `i == 0` pass of the second part of `setEdges`: each source's short-range records
      * become a duplicate-free list of path wrappers holding the same wrappers, and the last
      * monitor path of each source gives its monitor exit.  The sources are taken in any
      * order. */
    method ResolveShortPaths() returns (r: Outcome)
      requires graph.mapShortRangeFinallyPaths == map[] && graph.mapFinallyMonitorExceptionPathExits == map[]
      modifies graph`mapShortRangeFinallyPaths, graph`mapFinallyMonitorExceptionPathExits
      ensures r.Pass? <==> forall n :: n in mapShortRangeFinallyPathIds ==> ResolveShorts(mapShortRangeFinallyPathIds[n]).Some?
      ensures r.Pass? ==> forall n ::
        n in graph.mapShortRangeFinallyPaths <==> n in mapShortRangeFinallyPathIds && |mapShortRangeFinallyPathIds[n]| > 0
      ensures r.Pass? ==> forall n :: n in graph.mapShortRangeFinallyPaths ==>
        NoDups(graph.mapShortRangeFinallyPaths[n]) &&
        forall w :: w in graph.mapShortRangeFinallyPaths[n] <==> w in ResolveShorts(mapShortRangeFinallyPathIds[n]).value
      ensures r.Pass? ==> forall n ::
        n in graph.mapFinallyMonitorExceptionPathExits <==> n in mapShortRangeFinallyPathIds && MonitorExit(mapShortRangeFinallyPathIds[n]).Some?
      ensures r.Pass? ==> forall n :: n in graph.mapFinallyMonitorExceptionPathExits ==>
        Some(graph.mapFinallyMonitorExceptionPathExits[n]) == MonitorExit(mapShortRangeFinallyPathIds[n])
    {
      var ids := mapShortRangeFinallyPathIds;
      var remaining := ids.Keys;
      while remaining != {}
        invariant remaining <= ids.Keys
        invariant forall n :: n in ids && n !in remaining ==> ResolveShorts(ids[n]).Some?
        invariant forall n :: n in graph.mapShortRangeFinallyPaths <==> n in ids && n !in remaining && |ids[n]| > 0
        invariant forall n :: n in graph.mapShortRangeFinallyPaths ==>
          NoDups(graph.mapShortRangeFinallyPaths[n]) &&
          forall w :: w in graph.mapShortRangeFinallyPaths[n] <==> w in ResolveShorts(ids[n]).value
        invariant forall n ::
          n in graph.mapFinallyMonitorExceptionPathExits <==> n in ids && n !in remaining && MonitorExit(ids[n]).Some?
        invariant forall n :: n in graph.mapFinallyMonitorExceptionPathExits ==>
          Some(graph.mapFinallyMonitorExceptionPathExits[n]) == MonitorExit(ids[n])
        decreases remaining
      {
        var n :| n in remaining;
        var res, exit := ResolveShortList(ids[n]);
        if res.None? {
          return Fail(NPE);
        }
        if exit.Some? {
          graph.mapFinallyMonitorExceptionPathExits := graph.mapFinallyMonitorExceptionPathExits[n := exit.value];
        }
        if |res.value| > 0 {
          graph.mapShortRangeFinallyPaths := graph.mapShortRangeFinallyPaths[n := Dedup(res.value)];
        }
        remaining := remaining - {n};
      }
      r := Pass;
    }

    /** The `i == 1` pass: the same for the long-range records. */
    method ResolveLongPaths() returns (r: Outcome)
      requires graph.mapLongRangeFinallyPaths == map[]
      modifies graph`mapLongRangeFinallyPaths
      ensures r.Pass? <==> forall n :: n in mapLongRangeFinallyPathIds ==> ResolveLongs(mapLongRangeFinallyPathIds[n]).Some?
      ensures r.Pass? ==> forall n ::
        n in graph.mapLongRangeFinallyPaths <==> n in mapLongRangeFinallyPathIds && |mapLongRangeFinallyPathIds[n]| > 0
      ensures r.Pass? ==> forall n :: n in graph.mapLongRangeFinallyPaths ==>
        NoDups(graph.mapLongRangeFinallyPaths[n]) &&
        forall w :: w in graph.mapLongRangeFinallyPaths[n] <==> w in ResolveLongs(mapLongRangeFinallyPathIds[n]).value
    {
      var ids := mapLongRangeFinallyPathIds;
      var remaining := ids.Keys;
      while remaining != {}
        invariant remaining <= ids.Keys
        invariant forall n :: n in ids && n !in remaining ==> ResolveLongs(ids[n]).Some?
        invariant forall n :: n in graph.mapLongRangeFinallyPaths <==> n in ids && n !in remaining && |ids[n]| > 0
        invariant forall n :: n in graph.mapLongRangeFinallyPaths ==>
          NoDups(graph.mapLongRangeFinallyPaths[n]) &&
          forall w :: w in graph.mapLongRangeFinallyPaths[n] <==> w in ResolveLongs(ids[n]).value
        decreases remaining
      {
        var n :| n in remaining;
        var res := ResolveLongList(ids[n]);
        if res.None? {
          return Fail(NPE);
        }
        if |res.value| > 0 {
          graph.mapLongRangeFinallyPaths := graph.mapLongRangeFinallyPaths[n := Dedup(res.value)];
        }
        remaining := remaining - {n};
      }
      r := Pass;
    }

    /** `setEdges`. */
    method SetEdges() returns (r: Outcome)
      requires Resolvable() && graph.Unlinked()
      modifies graph
      ensures graph.nodes == old(graph.nodes) && Resolvable() && graph.first == None
      ensures r.Pass? ==> Linked()
    {
      r := LinkEdges();
      if r.Fail? {
        return;
      }
      r := ResolveShortPaths();
      if r.Fail? {
        return;
      }
      r := ResolveLongPaths();
    }

    /** The graph once `setEdges` has succeeded: every collected edge is resolved into
      * mirrored, duplicate-free successor and predecessor lists, the negative if branches
      * are recorded, and every source's finally paths are its resolved records without
      * repetition. */
    ghost predicate Linked()
      reads this, graph`succs, graph`preds, graph`mapNegIfBranch, graph`mapShortRangeFinallyPaths
      reads graph`mapLongRangeFinallyPaths, graph`mapFinallyMonitorExceptionPathExits
    {
      (forall e :: e in listEdges ==> Resolve(e).Some?)
      && graph.Mirrored() && graph.DupFree()
      && (forall a, b :: b in graph.Succs(a) <==> b in Targets(listEdges, a))
      && (forall n :: n in graph.mapNegIfBranch <==> NegTarget(listEdges, n).Some?)
      && (forall n :: n in graph.mapNegIfBranch ==> Some(graph.mapNegIfBranch[n]) == NegTarget(listEdges, n))
      && (forall n :: n in graph.mapShortRangeFinallyPaths <==> n in mapShortRangeFinallyPathIds && |mapShortRangeFinallyPathIds[n]| > 0)
      && (forall n :: n in graph.mapShortRangeFinallyPaths ==>
            ResolveShorts(mapShortRangeFinallyPathIds[n]).Some? &&
            NoDups(graph.mapShortRangeFinallyPaths[n]) &&
            forall w :: w in graph.mapShortRangeFinallyPaths[n] <==> w in ResolveShorts(mapShortRangeFinallyPathIds[n]).value)
      && (forall n :: n in graph.mapLongRangeFinallyPaths <==> n in mapLongRangeFinallyPathIds && |mapLongRangeFinallyPathIds[n]| > 0)
      && (forall n :: n in graph.mapLongRangeFinallyPaths ==>
            ResolveLongs(mapLongRangeFinallyPathIds[n]).Some? &&
            NoDups(graph.mapLongRangeFinallyPaths[n]) &&
            forall w :: w in graph.mapLongRangeFinallyPaths[n] <==> w in ResolveLongs(mapLongRangeFinallyPathIds[n]).value)
      && (forall n :: n in graph.mapFinallyMonitorExceptionPathExits ==>
            n in mapShortRangeFinallyPathIds && Some(graph.mapFinallyMonitorExceptionPathExits[n]) == MonitorExit(mapShortRangeFinallyPathIds[n]))
    }

    /** `buildDirectGraph`: flattens the tree, adds the dummy exit's node, resolves the
      * edges and takes the root's node as the graph's first node. */
    method BuildDirectGraph(fuel: nat) returns (r: Outcome)
      requires Flattening()
      modifies this, graph
      ensures r.Pass? ==> Linked() && Resolvable()
      ensures r.Pass? ==> forall e :: e in listEdges ==> e.edgeType != TYPE_FINALLYEXIT
      ensures r.Pass? ==> graph.Closed()
      ensures r.Pass? ==>
        var exit := NodeId(root.kind.dummyExit, Direct);
        exit in graph.nodes && graph.nodes[exit] == [] &&
        root.kind.dummyExit in mapDestinationNodes && mapDestinationNodes[root.kind.dummyExit] == DestNodePair(exit, None)
      ensures r.Pass? ==> root.id in mapDestinationNodes && graph.first == Some(mapDestinationNodes[root.id].direct)
    {
      r := FlattenStatement(fuel);
      if r.Fail? {
        return;
      }
      AddDummyExit();
      ghost var exit := NodeId(root.kind.dummyExit, Direct);
      ghost var dests := mapDestinationNodes;
      assert forall e :: e in listEdges ==> e.edgeType != TYPE_FINALLYEXIT;
      r := SetEdges();
      if r.Fail? {
        return;
      }
      assert exit in graph.nodes && graph.nodes[exit] == [] && mapDestinationNodes == dests;
      if root.id !in mapDestinationNodes {
        return Fail(NPE);
      }
      SetFirst(mapDestinationNodes[root.id].direct);
      LinkedIsClosed();
    }

    /** Every link joins two nodes of the graph. */
    lemma LinkedIsClosed()
      requires Linked() && Resolvable()
      ensures graph.Closed()
    {
      forall a, b | b in graph.Succs(a)
        ensures a in graph.nodes
      {
        TargetsInGraph(a, b);
      }
      forall a, b | b in graph.Succs(a)
        ensures b in graph.nodes
      {
        TargetsInGraph(a, b);
      }
    }

    /** The dummy exit's node, with no expressions, and its destination pair. */
    method AddDummyExit()
      requires Flattening()
      modifies this, graph
      ensures Flattening() && listEdges == old(listEdges)
      ensures
        var exit := NodeId(root.kind.dummyExit, Direct);
        exit in graph.nodes && graph.nodes[exit] == [] &&
        root.kind.dummyExit in mapDestinationNodes && mapDestinationNodes[root.kind.dummyExit] == DestNodePair(exit, None)
    {
      var exit := NodeId(root.kind.dummyExit, Direct);
      AddNode(exit, []);
      PutDest(root.kind.dummyExit, DestNodePair(exit, None));
    }

    method SetFirst(n: NodeId)
      modifies graph`first
      ensures graph.first == Some(n)
    {
      graph.first := Some(n);
    }
  }
}
