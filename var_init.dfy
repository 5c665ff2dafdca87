/**
 * What the variable pass records before it places definitions: the slots of the method's
 * parameters, the slots of catch and resource variables (both implicitly defined), and, for
 * every statement, the slots its subtree uses and the slots it is the defining statement of.
 *
 * A statement is identified by its path from the root: the child positions leading to it.
 */
module VarInit {
  import opened Wrappers
  import opened Exprents
  import opened Statements
  import opened VarMerge

  // ---------------------------------------------------------------------------------------
  // Parameters

  /** The stack slots taken by the first `j` parameters. */
  function Offset(sizes: seq<nat>, j: nat): nat
    requires j <= |sizes|
  {
    if j == 0 then 0 else Offset(sizes, j - 1) + sizes[j - 1]
  }

  /** The slots of `this` (for an instance method) and of each parameter, in order. */
  function Slots(isStatic: bool, sizes: seq<nat>): (r: seq<int>)
    ensures |r| == (if isStatic then 0 else 1) + |sizes|
  {
    var off := if isStatic then 0 else 1;
    (if isStatic then [] else [0]) + seq(|sizes|, j requires 0 <= j < |sizes| => off + Offset(sizes, j))
  }

  /** The slot the loop's `varindex` holds when it reaches position `i`. */
  function SlotAt(isStatic: bool, sizes: seq<nat>, i: nat): int
    requires i <= (if isStatic then 0 else 1) + |sizes|
  {
    if isStatic then Offset(sizes, i) else if i == 0 then 0 else 1 + Offset(sizes, i - 1)
  }

  /** The loop of the constructor over the parameters: `this` takes slot 0, each parameter
    * the slot after the previous one's `stackSize` slots. */
  method ParamSlots(isStatic: bool, sizes: seq<nat>) returns (slots: seq<int>)
    ensures |slots| == (if isStatic then 0 else 1) + |sizes|
    ensures !isStatic ==> slots[0] == 0
    ensures var off := if isStatic then 0 else 1;
            forall j :: 0 <= j < |sizes| ==> slots[off + j] == off + Offset(sizes, j)
    ensures slots == Slots(isStatic, sizes)
  {
    var thisvar := !isStatic;
    var paramcount := (if thisvar then 1 else 0) + |sizes|;
    var varindex := 0;
    slots := [];
    var i := 0;
    while i < paramcount
      invariant 0 <= i <= paramcount && |slots| == i
      invariant varindex == SlotAt(isStatic, sizes, i)
      invariant forall j :: 0 <= j < i ==> slots[j] == SlotAt(isStatic, sizes, j)
    {
      slots := slots + [varindex];
      if thisvar {
        if i == 0 {
          varindex := varindex + 1;
        } else {
          varindex := varindex + sizes[i - 1];
        }
      } else {
        varindex := varindex + sizes[i];
      }
      i := i + 1;
    }
    SlotsAreSlotAt(isStatic, sizes);
  }

  lemma SlotsAreSlotAt(isStatic: bool, sizes: seq<nat>)
    ensures var r := Slots(isStatic, sizes);
            forall j :: 0 <= j < |r| ==> r[j] == SlotAt(isStatic, sizes, j)
  {
  }

  /** Every parameter takes at least one slot, so the slots rise strictly and no two
    * parameters share one. */
  lemma {:induction false} SlotsIncrease(isStatic: bool, sizes: seq<nat>)
    requires forall j :: 0 <= j < |sizes| ==> sizes[j] >= 1
    ensures var r := Slots(isStatic, sizes);
            forall a, b :: 0 <= a < b < |r| ==> r[a] < r[b]
  {
    var r := Slots(isStatic, sizes);
    var off := if isStatic then 0 else 1;
    forall a, b | 0 <= a < b < |r|
      ensures r[a] < r[b]
    {
      if !isStatic && a == 0 {
        assert r[b] == 1 + Offset(sizes, b - 1);
      } else {
        OffsetIncreases(sizes, a - off, b - off);
      }
    }
  }

  lemma {:induction false} OffsetIncreases(sizes: seq<nat>, a: nat, b: nat)
    requires a < b <= |sizes|
    requires forall j :: 0 <= j < |sizes| ==> sizes[j] >= 1
    ensures Offset(sizes, a) < Offset(sizes, b)
    decreases b
  {
    if a < b - 1 {
      OffsetIncreases(sizes, a, b - 1);
    }
  }

  /** The `parent` scope `mergeVars(root)` starts from: each parameter slot at version 0. */
  method ParentScope(isStatic: bool, sizes: seq<nat>) returns (parent: Scope)
    ensures forall k :: k in parent <==> k in Slots(isStatic, sizes)
    ensures forall k :: k in parent ==> parent[k] == VarVersionPair(k, 0)
  {
    parent := map[];
    var index := 0;
    if !isStatic {
      parent := parent[index := VarVersionPair(index, 0)];
      index := index + 1;
    }
    var off := if isStatic then 0 else 1;
    var j := 0;
    while j < |sizes|
      invariant 0 <= j <= |sizes| && index == off + Offset(sizes, j)
      invariant forall k :: k in parent <==> k in Slots(isStatic, sizes)[..off + j]
      invariant forall k :: k in parent ==> parent[k] == VarVersionPair(k, 0)
    {
      SlotsSnoc(isStatic, sizes, j);
      parent := parent[index := VarVersionPair(index, 0)];
      index := index + sizes[j];
      j := j + 1;
    }
    assert Slots(isStatic, sizes)[..off + j] == Slots(isStatic, sizes);
  }

  lemma SlotsSnoc(isStatic: bool, sizes: seq<nat>, j: nat)
    requires j < |sizes|
    ensures var off := if isStatic then 0 else 1;
            Slots(isStatic, sizes)[..off + j + 1] == Slots(isStatic, sizes)[..off + j] + [off + Offset(sizes, j)]
  {
  }

  // ---------------------------------------------------------------------------------------
  // Catch and resource variables

  /** The slots of the statement's catch variables, and of the left sides of its resource
    * assignments; `None` when one of them is not a variable (or a resource not an
    * assignment), where the source's casts throw. */
  function CatchSlots(s: Statement): (r: Option<set<int>>)
  {
    match s.kind
    case CatchAll(_, _, vars) => VarIndices(vars)
    case TryCatch(_, resources, vars) => Join(VarIndices(vars), ResourceIndices(resources))
    case _ => Some({})
  }

  function Join(a: Option<set<int>>, b: Option<set<int>>): (r: Option<set<int>>)
    ensures r.Some? <==> a.Some? && b.Some?
  {
    if a.Some? && b.Some? then Some(a.value + b.value) else None
  }

  lemma JoinLaws(a: Option<set<int>>, b: Option<set<int>>, c: Option<set<int>>)
    ensures Join(Some({}), a) == a
    ensures Join(a, Some({})) == a
    ensures Join(Join(a, b), c) == Join(a, Join(b, c))
    ensures Join(a, b) == Join(b, a)
  {
    if a.Some? && b.Some? {
      assert a.value + b.value == b.value + a.value;
    }
    if a.Some? {
      assert {} + a.value == a.value + {} == a.value;
    }
    if a.Some? && b.Some? && c.Some? {
      assert (a.value + b.value) + c.value == a.value + (b.value + c.value);
    }
  }

  function VarIndices(vars: seq<Exprent>): (r: Option<set<int>>)
    ensures r.Some? <==> forall k :: 0 <= k < |vars| ==> vars[k].Var?
  {
    if |vars| == 0 then Some({})
    else
      assert forall k :: 1 <= k < |vars| ==> vars[k] == vars[1..][k - 1];
      if vars[0].Var? then Join(Some({vars[0].index}), VarIndices(vars[1..])) else None
  }

  function ResourceIndices(resources: seq<Exprent>): (r: Option<set<int>>)
    ensures r.Some? <==> forall k :: 0 <= k < |resources| ==> resources[k].Assignment? && resources[k].left.Var?
  {
    if |resources| == 0 then Some({})
    else
      var e := resources[0];
      assert forall k :: 1 <= k < |resources| ==> resources[k] == resources[1..][k - 1];
      if e.Assignment? && e.left.Var? then Join(Some({e.left.index}), ResourceIndices(resources[1..]))
      else None
  }

  /** The catch slots of every statement of the tree. */
  function TreeCatchSlots(s: Statement): Option<set<int>>
    decreases s, 1
  {
    Join(CatchSlots(s), AllCatchSlots(s.stats))
  }

  function AllCatchSlots(ss: seq<Statement>): Option<set<int>>
    decreases ss, 0
  {
    if |ss| == 0 then Some({}) else Join(TreeCatchSlots(ss[0]), AllCatchSlots(ss[1..]))
  }

  lemma {:induction false} AllCatchSlotsAppend(a: seq<Statement>, b: seq<Statement>)
    ensures AllCatchSlots(a + b) == Join(AllCatchSlots(a), AllCatchSlots(b))
  {
    if |a| > 0 {
      assert (a + b)[1..] == a[1..] + b;
      AllCatchSlotsAppend(a[1..], b);
      JoinLaws(TreeCatchSlots(a[0]), AllCatchSlots(a[1..]), AllCatchSlots(b));
    } else {
      assert a + b == b;
      JoinLaws(AllCatchSlots(b), None, None);
    }
  }

  /** The size of a queue of statements shrinks by one when its head is replaced by the
    * head's children at the back. */
  lemma QueueShrinks(queue: seq<Statement>)
    requires |queue| > 0
    ensures SizeAll(queue[1..] + queue[0].stats) == SizeAll(queue) - 1
  {
    SizeAllAppend(queue[1..], queue[0].stats);
  }

  /** Taking the head of the queue: its own slots join the collected ones and its children
    * join the back of the queue. */
  lemma QueueStep(stack: seq<Statement>, slots: set<int>)
    requires |stack| > 0
    ensures var st := stack[0];
      CatchSlots(st).None? ==> Join(Some(slots), AllCatchSlots(stack)).None?
    ensures var st := stack[0];
      CatchSlots(st).Some? ==>
      Join(Some(slots), AllCatchSlots(stack)) == Join(Some(slots + CatchSlots(st).value), AllCatchSlots(stack[1..] + st.stats))
  {
    var st := stack[0];
    var own, kids, rest := CatchSlots(st), AllCatchSlots(st.stats), AllCatchSlots(stack[1..]);
    AllCatchSlotsAppend(stack[1..], st.stats);
    JoinLaws(own, kids, rest);
    JoinLaws(rest, kids, None);
    JoinLaws(Some(slots), own, Join(kids, rest));
  }

  /** The constructor's breadth-first walk collecting the implicitly defined catch and
    * resource slots; a resource that is not an assignment to a variable makes the cast
    * throw. */
  method CatchVarSlots(root: Statement) returns (r: Result<set<int>>)
    ensures r.Failure? <==> TreeCatchSlots(root).None?
    ensures r.Success? ==> r.value == TreeCatchSlots(root).value
    ensures r.Failure? ==> r.error == "ClassCastException"
  {
    var stack := [root];
    var slots: set<int> := {};
    assert AllCatchSlots([root]) == Join(TreeCatchSlots(root), AllCatchSlots([]));
    JoinLaws(TreeCatchSlots(root), None, None);
    while |stack| > 0
      invariant Join(Some(slots), AllCatchSlots(stack)) == TreeCatchSlots(root)
      decreases SizeAll(stack)
    {
      var st := stack[0];
      QueueShrinks(stack);
      QueueStep(stack, slots);
      var own := CatchSlots(st);
      if own.None? {
        return Failure("ClassCastException");
      }
      slots := slots + own.value;
      stack := stack[1..] + st.stats;
    }
    return Success(slots);
  }

  /** `var.setDefinition(true)` on every catch variable and every resource variable of the
    * tree. */
  function MarkCatchVars(s: Statement): (r: Statement)
    ensures r.id == s.id && |r.stats| == |s.stats| && r.exprents == s.exprents
  {
    var kind :=
      match s.kind
      case CatchAll(isFinally, monitor, vars) => CatchAll(isFinally, monitor, MarkDefinitions(vars))
      case TryCatch(hasResources, resources, vars) => TryCatch(hasResources, MarkResources(resources), MarkDefinitions(vars))
      case k => k;
    s.(kind := kind, stats := seq(|s.stats|, k requires 0 <= k < |s.stats| => MarkCatchVars(s.stats[k])))
  }

  function MarkDefinitions(vars: seq<Exprent>): (r: seq<Exprent>)
    ensures |r| == |vars|
    ensures forall k :: 0 <= k < |vars| ==> r[k] == (if vars[k].Var? then vars[k].(definition := true) else vars[k])
  {
    if |vars| == 0 then []
    else [if vars[0].Var? then vars[0].(definition := true) else vars[0]] + MarkDefinitions(vars[1..])
  }

  function MarkResources(resources: seq<Exprent>): (r: seq<Exprent>)
    ensures |r| == |resources|
    ensures forall k :: 0 <= k < |resources| && resources[k].Assignment? && resources[k].left.Var? ==>
      r[k] == Assignment(resources[k].left.(definition := true), resources[k].right)
  {
    if |resources| == 0 then []
    else
      var e := resources[0];
      [if e.Assignment? && e.left.Var? then Assignment(e.left.(definition := true), e.right) else e] +
      MarkResources(resources[1..])
  }

  /** After marking, the resource assignments of a try statement are definition sites, so
    * the search for conflicts sees them. */
  lemma MarkedResourcesDefine(s: Statement)
    requires s.kind.TryCatch? && TreeCatchSlots(s).Some?
    ensures var res := MarkCatchVars(s).kind.resources;
            forall k :: 0 <= k < |res| ==> DefinitionSite(res[k]).Some?
  {
    assert CatchSlots(s).Some?;
  }

  // ---------------------------------------------------------------------------------------
  // getAllVars and initStatement

  /** The slots of the variables among `lst`. */
  function IndicesOf(lst: seq<Exprent>): set<int>
  {
    set k | 0 <= k < |lst| && lst[k].Var? :: lst[k].index
  }

  /** `getAllVars(lst)`, as the slots of the variables found: those of every expression
    * and its descendants; `None` when the list holds a `null`. */
  function VarSlots(lst: seq<Option<Exprent>>): (r: Option<set<int>>)
    ensures r.Some? <==> forall k :: 0 <= k < |lst| ==> lst[k].Some?
  {
    if |lst| == 0 then Some({})
    else
      assert forall k :: 1 <= k < |lst| ==> lst[k] == lst[1..][k - 1];
      if lst[0].None? then None else Join(Some(IndicesOf(ReadList(lst[0].value))), VarSlots(lst[1..]))
  }

  /** The slots of the variables of one expression's read list are those of its subtree. */
  lemma IndicesOfReadList(e: Exprent, x: int)
    ensures x in IndicesOf(ReadList(e)) <==> exists p :: InSubtree(e, p) && p.index == x
  {
    var lst := ReadList(e);
    if x in IndicesOf(lst) {
      var i :| 0 <= i < |lst| && lst[i].Var? && lst[i].index == x;
      if i < |Desc(e)| {
        assert lst[i] in Desc(e);
      }
      assert InSubtree(e, lst[i].Pair());
    }
    if exists p :: InSubtree(e, p) && p.index == x {
      var p :| InSubtree(e, p) && p.index == x;
      if e.Var? && e.Pair() == p {
        assert lst[|Desc(e)|] == e;
      } else {
        var d :| d in Desc(e) && d.Var? && d.Pair() == p;
        var i :| 0 <= i < |Desc(e)| && Desc(e)[i] == d;
        assert lst[i] == d;
      }
    }
  }

  /** A slot found by `getAllVars` is that of a variable in one of the expressions. */
  lemma {:induction false} VarSlotsMeans(lst: seq<Option<Exprent>>, x: int)
    requires VarSlots(lst).Some?
    ensures x in VarSlots(lst).value <==>
      exists k, p :: 0 <= k < |lst| && InSubtree(lst[k].value, p) && p.index == x
  {
    if |lst| > 0 {
      VarSlotsMeans(lst[1..], x);
      IndicesOfReadList(lst[0].value, x);
      if exists k, p :: 0 <= k < |lst| && InSubtree(lst[k].value, p) && p.index == x {
        var k, p :| 0 <= k < |lst| && InSubtree(lst[k].value, p) && p.index == x;
        if k > 0 {
          assert lst[1..][k - 1] == lst[k];
        }
      }
      if x in VarSlots(lst[1..]).value {
        var k, p :| 0 <= k < |lst[1..]| && InSubtree(lst[1..][k].value, p) && p.index == x;
        assert lst[k + 1] == lst[1..][k];
      }
    }
  }

  /** The expression a child adds to its parent's own list: a `while` or `do-while` loop's
    * condition (`None` standing for a missing one), a finally handler's monitor. */
  function ChildExtra(c: Statement): seq<Option<Exprent>>
  {
    match c.kind
    case Do(loop, _, cond, _) => if loop == LoopWhile || loop == LoopDoWhile then [cond] else []
    case CatchAll(isFinally, monitor, _) => if isFinally && monitor.Some? then [monitor] else []
    case _ => []
  }

  /** `currVars` of a compound statement: its expressions among the objects, and each
    * child's extra expression, in order. */
  function CurrVars(objs: seq<Obj>): seq<Option<Exprent>>
  {
    if |objs| == 0 then []
    else
      (match objs[0]
       case StatObj(c) => ChildExtra(c)
       case ExprObj(e) => [Some(e)]
       case NullObj => []) + CurrVars(objs[1..])
  }

  lemma CurrVarsStep(objs: seq<Obj>, i: nat)
    requires i < |objs|
    ensures CurrVars(objs[..i + 1]) == CurrVars(objs[..i]) +
      (match objs[i] case StatObj(c) => ChildExtra(c) case ExprObj(e) => [Some(e)] case NullObj => [])
  {
    CurrVarsAppend(objs[..i], [objs[i]]);
    assert objs[..i + 1] == objs[..i] + [objs[i]];
  }

  lemma {:induction false} CurrVarsAppend(a: seq<Obj>, b: seq<Obj>)
    ensures CurrVars(a + b) == CurrVars(a) + CurrVars(b)
  {
    if |a| > 0 {
      assert (a + b)[1..] == a[1..] + b;
      CurrVarsAppend(a[1..], b);
    } else {
      assert a + b == b;
    }
  }

  /** The statement's own variables: a basic block's expressions, or `currVars`. */
  function OwnVars(s: Statement): Option<set<int>>
  {
    if s.exprents.Some? then VarSlots(Somes(s.exprents.value))
    else VarSlots(CurrVars(SequentialObjects(s)))
  }

  function Somes(exps: seq<Exprent>): (r: seq<Option<Exprent>>)
    ensures |r| == |exps| && forall k :: 0 <= k < |exps| ==> r[k] == Some(exps[k])
  {
    if |exps| == 0 then [] else [Some(exps[0])] + Somes(exps[1..])
  }

  /** In how many of the sets `k` occurs. */
  function Count(sets: seq<set<int>>, k: int): (r: nat)
    ensures r <= |sets|
  {
    if |sets| == 0 then 0 else Count(sets[..|sets| - 1], k) + (if k in sets[|sets| - 1] then 1 else 0)
  }

  function Union(sets: seq<set<int>>): (r: set<int>)
    ensures forall k :: k in r <==> Count(sets, k) > 0
  {
    if |sets| == 0 then {} else Union(sets[..|sets| - 1]) + sets[|sets| - 1]
  }

  /** `mapCount` after the loop over the children's sets: each slot with the number of
    * children using it. */
  function CountMap(sets: seq<set<int>>): (r: map<int, int>)
    ensures r.Keys == Union(sets)
  {
    map k | k in Union(sets) :: Count(sets, k)
  }

  /** `mapCount` after the statement's own variables are set to 2. */
  function OwnCount(count: map<int, int>, own: set<int>): (r: map<int, int>)
    ensures r.Keys == count.Keys + own
  {
    map k | k in count.Keys + own :: if k in own then 2 else count[k]
  }

  /** The slots the statement is the defining statement of: those counted more than once. */
  function Defined(count: map<int, int>): set<int>
  {
    set k | k in count && count[k] > 1
  }

  /** A statement defines a slot exactly when it uses it itself or at least two of its
    * children use it; the set it returns is every slot its children or it use. */
  lemma DefinedMeans(sets: seq<set<int>>, own: set<int>)
    ensures var count := OwnCount(CountMap(sets), own);
            (forall k :: k in Defined(count) <==> k in own || Count(sets, k) >= 2) &&
            count.Keys == Union(sets) + own
  {
  }

  /** Where the pass has got: the defining statement of each slot (by path) and the slots
    * used under each statement (by id). */
  datatype InitMaps = InitMaps(defAt: map<int, seq<nat>>, statVars: map<int, set<int>>)

  /** Recording the statement at `path` for each slot it defines, and its set. */
  function Record(m: InitMaps, id: int, path: seq<nat>, count: map<int, int>): (r: InitMaps)
    ensures r.defAt.Keys == m.defAt.Keys + Defined(count)
    ensures forall k :: k in r.defAt ==> r.defAt[k] == (if k in Defined(count) then path else m.defAt[k])
    ensures r.statVars == m.statVars[id := count.Keys]
  {
    var defs := Defined(count);
    InitMaps(map k | k in m.defAt.Keys + defs :: if k in defs then path else m.defAt[k],
             m.statVars[id := count.Keys])
  }

  /** `initStatement(stat)` at `path`: the children first, in order, then the statement's
    * own count.  `None` when a `null` condition reaches `getAllVars`. */
  function InitStat(s: Statement, path: seq<nat>, m: InitMaps): Option<(set<int>, InitMaps)>
    decreases s, 1
  {
    match InitChildren(s, path, 0, m)
    case None => None
    case Some((sets, m')) =>
      var own := OwnVars(s);
      if own.None? then None
      else
        var count := OwnCount(if s.exprents.Some? then map[] else CountMap(sets), own.value);
        Some((count.Keys, Record(m', s.id, path, count)))
  }

  /** The children from `j` on, each at its own path, threading the maps. */
  function InitChildren(s: Statement, path: seq<nat>, j: nat, m: InitMaps): Option<(seq<set<int>>, InitMaps)>
    requires j <= |s.stats|
    decreases s, 0, |s.stats| - j
  {
    if j == |s.stats| || s.exprents.Some? then Some(([], m))
    else
      match InitStat(s.stats[j], path + [j], m)
      case None => None
      case Some((set1, m1)) =>
        match InitChildren(s, path, j + 1, m1)
        case None => None
        case Some((sets, m2)) => Some(([set1] + sets, m2))
  }

  // ---------------------------------------------------------------------------------------
  // Paths

  /** `path` leads from `root` to a statement. */
  predicate ValidPath(root: Statement, path: seq<nat>)
  {
    |path| == 0 || (path[0] < |root.stats| && ValidPath(root.stats[path[0]], path[1..]))
  }

  /** The statement `path` leads to. */
  function At(root: Statement, path: seq<nat>): Statement
    requires ValidPath(root, path)
  {
    if |path| == 0 then root else At(root.stats[path[0]], path[1..])
  }

  lemma {:induction false} AtChild(root: Statement, path: seq<nat>, j: nat)
    requires ValidPath(root, path) && j < |At(root, path).stats|
    ensures ValidPath(root, path + [j])
    ensures At(root, path + [j]) == At(root, path).stats[j]
  {
    if |path| > 0 {
      assert (path + [j])[1..] == path[1..] + [j];
      AtChild(root.stats[path[0]], path[1..], j);
    }
  }

  /** Every slot `s` uses in its own expressions or its children's sets. */
  ghost function UsedSlots(s: Statement): set<int>
    decreases s, 1
  {
    var own := OwnVars(s);
    (if own.Some? then own.value else {}) + (if s.exprents.Some? then {} else Union(ChildUsed(s, 0)))
  }

  ghost function ChildUsed(s: Statement, j: nat): seq<set<int>>
    requires j <= |s.stats|
    decreases s, 0, |s.stats| - j
  {
    if j == |s.stats| then [] else [UsedSlots(s.stats[j])] + ChildUsed(s, j + 1)
  }

  /** `s` is the defining statement of slot `k`: it uses `k` in its own expressions, or at
    * least two of its children use it. */
  ghost predicate DefinesAt(s: Statement, k: int)
  {
    var own := OwnVars(s);
    (own.Some? && k in own.value) || (s.exprents.None? && Count(ChildUsed(s, 0), k) >= 2)
  }

  /** Every recorded defining statement is a statement of the tree that defines the slot. */
  ghost predicate Sound(root: Statement, m: InitMaps)
  {
    forall k :: k in m.defAt ==> ValidPath(root, m.defAt[k]) && DefinesAt(At(root, m.defAt[k]), k)
  }

  /** `initStatement` returns the slots used under the statement, and records only true
    * defining statements. */
  lemma {:induction false} InitStatSound(root: Statement, s: Statement, path: seq<nat>, m: InitMaps)
    requires ValidPath(root, path) && At(root, path) == s && Sound(root, m)
    requires InitStat(s, path, m).Some?
    ensures InitStat(s, path, m).value.0 == UsedSlots(s)
    ensures Sound(root, InitStat(s, path, m).value.1)
    decreases s, 1
  {
    var r := InitChildren(s, path, 0, m);
    InitChildrenSound(root, s, path, 0, m);
    var (sets, m') := r.value;
    var own := OwnVars(s).value;
    var count := OwnCount(if s.exprents.Some? then map[] else CountMap(sets), own);
    DefinedMeans(sets, own);
    assert s.exprents.None? ==> sets == ChildUsed(s, 0);
    forall k | k in Defined(count)
      ensures DefinesAt(s, k)
    {
    }
  }

  lemma {:induction false} InitChildrenSound(root: Statement, s: Statement, path: seq<nat>, j: nat, m: InitMaps)
    requires ValidPath(root, path) && At(root, path) == s && Sound(root, m) && j <= |s.stats|
    requires InitChildren(s, path, j, m).Some?
    ensures s.exprents.None? ==> InitChildren(s, path, j, m).value.0 == ChildUsed(s, j)
    ensures Sound(root, InitChildren(s, path, j, m).value.1)
    decreases s, 0, |s.stats| - j
  {
    if j < |s.stats| && s.exprents.None? {
      AtChild(root, path, j);
      var (set1, m1) := InitStat(s.stats[j], path + [j], m).value;
      InitStatSound(root, s.stats[j], path + [j], m);
      InitChildrenSound(root, s, path, j + 1, m1);
    }
  }

  /** The pass from the root records a slot under a statement that defines it. */
  lemma InitRootSound(root: Statement)
    requires InitStat(root, [], InitMaps(map[], map[])).Some?
    ensures var m := InitStat(root, [], InitMaps(map[], map[])).value.1;
            forall k :: k in m.defAt ==> ValidPath(root, m.defAt[k]) && DefinesAt(At(root, m.defAt[k]), k)
  {
    InitStatSound(root, root, [], InitMaps(map[], map[]));
  }
}
