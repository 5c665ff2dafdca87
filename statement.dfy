/**
 * The statement tree both passes walk: a statement's id, its kind with the expressions the
 * kind owns, its child statements, its own expression list (basic blocks only), its variable
 * definitions and its successor edges.
 *
 * Statement.java and its subclasses are not part of this model.  What the passes need of them
 * is taken to be: `getFirst()` is the first child; an if statement's children are its head
 * block, then its if body and else body when present; a catch-all's children are the
 * protected body then the handler; `getSequentialObjects()` is the children, with the head
 * expression of an if, switch or synchronized statement inserted after the first child, the
 * init, condition and increment of a loop around its body as the loop type orders them, and
 * the resources of a try-with-resources before its children.
 */
module Statements {
  import opened Wrappers
  import opened Exprents

  /** `StatEdge.TYPE_*`. */
  const TYPE_REGULAR: int := 1
  const TYPE_EXCEPTION: int := 2
  const TYPE_BREAK: int := 4
  const TYPE_CONTINUE: int := 8
  const TYPE_FINALLYEXIT: int := 32

  /** A successor edge: its type and the id of the statement it leads to. */
  datatype StatEdge = StatEdge(edgeType: int, destination: int)

  /** `DoStatement.LOOP_*`. */
  datatype LoopType = LoopDo | LoopDoWhile | LoopWhile | LoopFor | LoopForEach

  datatype Kind =
    | BasicBlock(lastIsIf: bool)
    | Sequence
    | General
    /** The method body; `dummyExit` is the id of its dummy exit statement. */
    | Root(dummyExit: int)
    | If(head: Option<Exprent>, isIfElse: bool)
    | Switch(head: Option<Exprent>)
    | Synchronized(head: Option<Exprent>)
    | Do(loopType: LoopType, init: Option<Exprent>, cond: Option<Exprent>, inc: Option<Exprent>)
    | TryCatch(hasResources: bool, resources: seq<Exprent>, vars: seq<Exprent>)
    | CatchAll(isFinally: bool, monitor: Option<Exprent>, vars: seq<Exprent>)

  datatype Statement = Statement(
    id: int,
    kind: Kind,
    stats: seq<Statement>,
    /** `getExprents()`: present exactly for basic blocks. */
    exprents: Option<seq<Exprent>>,
    varDefs: seq<Exprent>,
    succs: seq<StatEdge>,
    labeled: bool)

  /** An element of `getSequentialObjects()`: a statement, an expression, or `null` (a
    * missing head or loop expression). */
  datatype Obj = StatObj(stat: Statement) | ExprObj(expr: Exprent) | NullObj

  function ExprOrNull(e: Option<Exprent>): Obj
  {
    if e.Some? then ExprObj(e.value) else NullObj
  }

  function StatObjs(s: seq<Statement>): (r: seq<Obj>)
    ensures |r| == |s|
    ensures forall k :: 0 <= k < |s| ==> r[k] == StatObj(s[k])
  {
    if |s| == 0 then [] else [StatObj(s[0])] + StatObjs(s[1..])
  }

  function ExprObjs(s: seq<Exprent>): (r: seq<Obj>)
    ensures |r| == |s|
    ensures forall k :: 0 <= k < |s| ==> r[k] == ExprObj(s[k])
  {
    if |s| == 0 then [] else [ExprObj(s[0])] + ExprObjs(s[1..])
  }

  /** The head expression inserted after the first child. */
  function WithHead(stats: seq<Statement>, head: Option<Exprent>): seq<Obj>
  {
    if |stats| == 0 then [ExprOrNull(head)]
    else [StatObj(stats[0]), ExprOrNull(head)] + StatObjs(stats[1..])
  }

  /** A loop's objects: for a `for` loop its init (when present) and condition, for a
    * `while` loop its condition, for a `foreach` loop its init and increment (the loop
    * variable and the iterated value), then the body, then the condition of a `do-while` or
    * the increment of a `for`. */
  function LoopObjects(loop: LoopType, init: Option<Exprent>, cond: Option<Exprent>, inc: Option<Exprent>, stats: seq<Statement>): seq<Obj>
  {
    LoopBefore(loop, init, cond, inc) + StatObjs(stats) + LoopAfter(loop, cond, inc)
  }

  function LoopBefore(loop: LoopType, init: Option<Exprent>, cond: Option<Exprent>, inc: Option<Exprent>): seq<Obj>
  {
    if loop == LoopFor then (if init.Some? then [ExprObj(init.value)] else []) + [ExprOrNull(cond)]
    else if loop == LoopWhile then [ExprOrNull(cond)]
    else if loop == LoopForEach then [ExprOrNull(init), ExprOrNull(inc)]
    else []
  }

  function LoopAfter(loop: LoopType, cond: Option<Exprent>, inc: Option<Exprent>): seq<Obj>
  {
    if loop == LoopDoWhile then [ExprOrNull(cond)]
    else if loop == LoopFor then [ExprOrNull(inc)]
    else []
  }

  /** `getSequentialObjects()`. */
  function SequentialObjects(s: Statement): (r: seq<Obj>)
    ensures forall k :: 0 <= k < |r| && r[k].StatObj? ==> r[k].stat in s.stats
  {
    match s.kind
    case If(head, _) => WithHead(s.stats, head)
    case Switch(head) => WithHead(s.stats, head)
    case Synchronized(head) => WithHead(s.stats, head)
    case Do(loop, init, cond, inc) => LoopObjects(loop, init, cond, inc, s.stats)
    case TryCatch(_, resources, _) => ExprObjs(resources) + StatObjs(s.stats)
    case _ => StatObjs(s.stats)
  }

  /** The statements among `objs`, in order. */
  function StatsOf(objs: seq<Obj>): seq<Statement>
  {
    if |objs| == 0 then [] else (if objs[0].StatObj? then [objs[0].stat] else []) + StatsOf(objs[1..])
  }

  lemma {:induction false} StatsOfAppend(a: seq<Obj>, b: seq<Obj>)
    ensures StatsOf(a + b) == StatsOf(a) + StatsOf(b)
  {
    if |a| > 0 {
      assert (a + b)[1..] == a[1..] + b;
      StatsOfAppend(a[1..], b);
    } else {
      assert a + b == b;
    }
  }

  lemma {:induction false} StatsOfStatObjs(s: seq<Statement>)
    ensures StatsOf(StatObjs(s)) == s
  {
    if |s| > 0 {
      assert StatObjs(s)[1..] == StatObjs(s[1..]);
      StatsOfStatObjs(s[1..]);
    }
  }

  lemma {:induction false} StatsOfExprObjs(s: seq<Exprent>)
    ensures StatsOf(ExprObjs(s)) == []
  {
    if |s| > 0 {
      assert ExprObjs(s)[1..] == ExprObjs(s[1..]);
      StatsOfExprObjs(s[1..]);
    }
  }

  /** The statements of `getSequentialObjects()` are the children, in order: walking the
    * objects and counting the statements met gives each child's position. */
  lemma SequentialStats(s: Statement)
    ensures StatsOf(SequentialObjects(s)) == s.stats
  {
    var objs := SequentialObjects(s);
    match s.kind {
      case If(head, _) =>
        assert objs == WithHead(s.stats, head);
        WithHeadStats(s.stats, head);
      case Switch(head) =>
        assert objs == WithHead(s.stats, head);
        WithHeadStats(s.stats, head);
      case Synchronized(head) =>
        assert objs == WithHead(s.stats, head);
        WithHeadStats(s.stats, head);
      case Do(loop, init, cond, inc) =>
        assert objs == LoopObjects(loop, init, cond, inc, s.stats);
        LoopObjectsStats(loop, init, cond, inc, s.stats);
      case TryCatch(_, resources, _) =>
        assert objs == ExprObjs(resources) + StatObjs(s.stats);
        ResourcesStats(resources, s.stats);
      case _ =>
        assert objs == StatObjs(s.stats);
        StatsOfStatObjs(s.stats);
    }
  }

  lemma LoopObjectsStats(loop: LoopType, init: Option<Exprent>, cond: Option<Exprent>, inc: Option<Exprent>, stats: seq<Statement>)
    ensures StatsOf(LoopObjects(loop, init, cond, inc, stats)) == stats
  {
    var before, mid, after := LoopBefore(loop, init, cond, inc), StatObjs(stats), LoopAfter(loop, cond, inc);
    assert LoopObjects(loop, init, cond, inc, stats) == before + mid + after;
    NoStats(before);
    NoStats(after);
    StatsOfAppend(before + mid, after);
    StatsOfAppend(before, mid);
    StatsOfStatObjs(stats);
    assert StatsOf(before + mid) == stats;
  }

  lemma ResourcesStats(resources: seq<Exprent>, stats: seq<Statement>)
    ensures StatsOf(ExprObjs(resources) + StatObjs(stats)) == stats
  {
    StatsOfAppend(ExprObjs(resources), StatObjs(stats));
    StatsOfExprObjs(resources);
    StatsOfStatObjs(stats);
    assert [] + stats == stats;
  }

  lemma NoStats(objs: seq<Obj>)
    requires |objs| <= 2 && forall k :: 0 <= k < |objs| ==> !objs[k].StatObj?
    ensures StatsOf(objs) == []
  {
    if |objs| > 0 {
      assert StatsOf(objs) == StatsOf(objs[1..]);
    }
  }

  lemma WithHeadStats(stats: seq<Statement>, head: Option<Exprent>)
    ensures StatsOf(WithHead(stats, head)) == stats
  {
    if |stats| > 0 {
      StatsOfAppend([StatObj(stats[0]), ExprOrNull(head)], StatObjs(stats[1..]));
      StatsOfStatObjs(stats[1..]);
      assert [StatObj(stats[0]), ExprOrNull(head)][1..] == [ExprOrNull(head)];
      assert stats == [stats[0]] + stats[1..];
    }
  }

  /** One step of a walk over objects: the statements from `i` on are the object at `i`, if
    * a statement, then those after it. */
  lemma StatsOfStep(objs: seq<Obj>, i: nat)
    requires i < |objs|
    ensures StatsOf(objs[i..]) == (if objs[i].StatObj? then [objs[i].stat] else []) + StatsOf(objs[i + 1..])
  {
    assert objs[i..][1..] == objs[i + 1..];
  }

  /** A statement object heads the remaining children. */
  lemma ObjStatHead(objs: seq<Obj>, i: nat, stats: seq<Statement>, j: nat)
    requires i < |objs| && objs[i].StatObj? && j <= |stats| && StatsOf(objs[i..]) == stats[j..]
    ensures j < |stats| && stats[j] == objs[i].stat && StatsOf(objs[i + 1..]) == stats[j + 1..]
  {
    StatsOfStep(objs, i);
    assert stats[j..][0] == stats[j];
    assert stats[j..][1..] == stats[j + 1..];
  }

  /** The expressions among `objs`, in order. */
  function ExprsOf(objs: seq<Obj>): (r: seq<Exprent>)
    ensures forall i :: 0 <= i < |objs| && objs[i].ExprObj? ==> objs[i].expr in r
    ensures forall e :: e in r ==> ExprObj(e) in objs
  {
    if |objs| == 0 then []
    else
      var rest := ExprsOf(objs[1..]);
      assert forall i :: 1 <= i < |objs| ==> objs[i] == objs[1..][i - 1];
      (if objs[0].ExprObj? then [objs[0].expr] else []) + rest
  }

  lemma {:induction false} ExprsOfAppend(a: seq<Obj>, b: seq<Obj>)
    ensures ExprsOf(a + b) == ExprsOf(a) + ExprsOf(b)
  {
    if |a| > 0 {
      assert (a + b)[1..] == a[1..] + b;
      ExprsOfAppend(a[1..], b);
    } else {
      assert a + b == b;
    }
  }

  lemma {:induction false} ExprsOfStatObjs(s: seq<Statement>)
    ensures ExprsOf(StatObjs(s)) == []
  {
    if |s| > 0 {
      assert StatObjs(s)[1..] == StatObjs(s[1..]);
      ExprsOfStatObjs(s[1..]);
    }
  }

  lemma {:induction false} ExprsOfExprObjs(s: seq<Exprent>)
    ensures ExprsOf(ExprObjs(s)) == s
  {
    if |s| > 0 {
      assert ExprObjs(s)[1..] == ExprObjs(s[1..]);
      ExprsOfExprObjs(s[1..]);
    }
  }

  /** The expressions a statement's kind contributes to `getSequentialObjects()`. */
  function ObjExprs(k: Kind): seq<Exprent>
  {
    match k
    case If(head, _) => OptionList(head)
    case Switch(head) => OptionList(head)
    case Synchronized(head) => OptionList(head)
    case Do(loop, init, cond, inc) =>
      if loop == LoopFor then OptionList(init) + OptionList(cond) + OptionList(inc)
      else if loop == LoopWhile || loop == LoopDoWhile then OptionList(cond)
      else if loop == LoopForEach then OptionList(init) + OptionList(inc)
      else []
    case TryCatch(_, resources, _) => resources
    case _ => []
  }

  lemma WithHeadExprs(stats: seq<Statement>, head: Option<Exprent>)
    ensures ExprsOf(WithHead(stats, head)) == OptionList(head)
  {
    if |stats| > 0 {
      ExprsOfAppend([StatObj(stats[0]), ExprOrNull(head)], StatObjs(stats[1..]));
      ExprsOfStatObjs(stats[1..]);
      assert [StatObj(stats[0]), ExprOrNull(head)][1..] == [ExprOrNull(head)];
    }
  }

  lemma LoopBeforeExprs(loop: LoopType, init: Option<Exprent>, cond: Option<Exprent>, inc: Option<Exprent>)
    ensures ExprsOf(LoopBefore(loop, init, cond, inc)) ==
      if loop == LoopFor then OptionList(init) + OptionList(cond)
      else if loop == LoopWhile then OptionList(cond)
      else if loop == LoopForEach then OptionList(init) + OptionList(inc)
      else []
  {
    if loop == LoopFor {
      ExprsOfAppend(if init.Some? then [ExprObj(init.value)] else [], [ExprOrNull(cond)]);
    } else if loop == LoopForEach {
      ExprsOfAppend([ExprOrNull(init)], [ExprOrNull(inc)]);
      assert [ExprOrNull(init), ExprOrNull(inc)] == [ExprOrNull(init)] + [ExprOrNull(inc)];
    }
  }

  lemma LoopAfterExprs(loop: LoopType, cond: Option<Exprent>, inc: Option<Exprent>)
    ensures ExprsOf(LoopAfter(loop, cond, inc)) ==
      if loop == LoopDoWhile then OptionList(cond)
      else if loop == LoopFor then OptionList(inc)
      else []
  {
  }

  lemma LoopExprs(loop: LoopType, init: Option<Exprent>, cond: Option<Exprent>, inc: Option<Exprent>, stats: seq<Statement>)
    ensures ExprsOf(LoopObjects(loop, init, cond, inc, stats)) == ObjExprs(Do(loop, init, cond, inc))
  {
    ExprsOfStatObjs(stats);
    ExprsAroundStats(LoopBefore(loop, init, cond, inc), StatObjs(stats), LoopAfter(loop, cond, inc));
    LoopBeforeExprs(loop, init, cond, inc);
    LoopAfterExprs(loop, cond, inc);
  }

  /** Objects without expressions between two lists add nothing to their expressions. */
  lemma {:induction false} ExprsAroundStats(before: seq<Obj>, mid: seq<Obj>, after: seq<Obj>)
    requires ExprsOf(mid) == []
    ensures ExprsOf(before + mid + after) == ExprsOf(before) + ExprsOf(after)
  {
    ExprsOfAppend(before + mid, after);
    ExprsOfAppend(before, mid);
    assert ExprsOf(before) + [] == ExprsOf(before);
  }

  /** The expressions of `getSequentialObjects()` are the kind's own. */
  lemma SequentialExprs(s: Statement)
    ensures ExprsOf(SequentialObjects(s)) == ObjExprs(s.kind)
  {
    ExprsOfStatObjs(s.stats);
    match s.kind {
      case If(head, _) => WithHeadExprs(s.stats, head);
      case Switch(head) => WithHeadExprs(s.stats, head);
      case Synchronized(head) => WithHeadExprs(s.stats, head);
      case Do(loop, init, cond, inc) => LoopExprs(loop, init, cond, inc, s.stats);
      case TryCatch(_, resources, _) =>
        ExprsOfAppend(ExprObjs(resources), StatObjs(s.stats));
        ExprsOfExprObjs(resources);
      case _ =>
    }
  }

  /** `getSuccessorEdges(STATEDGE_DIRECT_ALL)`: every successor edge except exception edges,
    * in order. */
  function DirectAll(succs: seq<StatEdge>): (r: seq<StatEdge>)
    ensures forall k :: 0 <= k < |r| ==> r[k] in succs && r[k].edgeType != TYPE_EXCEPTION
    ensures forall e :: e in succs && e.edgeType != TYPE_EXCEPTION ==> e in r
  {
    if |succs| == 0 then []
    else (if succs[0].edgeType != TYPE_EXCEPTION then [succs[0]] else []) + DirectAll(succs[1..])
  }

  /** `containsStatementStrict(id)`: a statement with that id lies strictly below `s`. */
  predicate ContainsStrict(s: Statement, id: int)
  {
    exists k :: 0 <= k < |s.stats| && (s.stats[k].id == id || ContainsStrict(s.stats[k], id))
  }

  /** The number of statements in the tree. */
  function Size(s: Statement): (r: nat)
    ensures r >= 1
  {
    1 + SizeAll(s.stats)
  }

  function SizeAll(s: seq<Statement>): (r: nat)
    ensures forall k :: 0 <= k < |s| ==> Size(s[k]) <= r
  {
    if |s| == 0 then 0 else Size(s[0]) + SizeAll(s[1..])
  }

  lemma {:induction false} SizeAllAppend(a: seq<Statement>, b: seq<Statement>)
    ensures SizeAll(a + b) == SizeAll(a) + SizeAll(b)
  {
    if |a| > 0 {
      assert (a + b)[1..] == a[1..] + b;
      SizeAllAppend(a[1..], b);
    } else {
      assert a + b == b;
    }
  }
}
