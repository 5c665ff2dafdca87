/**
 * The conflict search of the variable pass: `mergeVars(stat, parent, leaked, blacklist)`
 * walks the statement tree with the slots in scope, and reports the first definition of a
 * slot that is already visible, unless that exact remap is blacklisted or (for a definition
 * inside an expression) the remap would be unsafe because the older version is read later.
 *
 * The tree is a value here: where the source removes a clashing definition from
 * `getVarDefinitions()` in place, the model returns the tree with that definition removed.
 * `varproc.getVarOriginalIndex` is the parameter `orig`.
 */
module VarMerge {
  import opened Wrappers
  import opened Exprents
  import opened Statements

  /** Original slot to the version of it in scope. */
  type Scope = map<int, VarVersionPair>

  /** Remaps `from -> to` that were tried and failed. */
  type Blacklist = map<VarVersionPair, VarVersionPair>

  /** What the search reads of its surroundings: `getVarOriginalIndex` and the blacklist. */
  datatype Ctx = Ctx(orig: int -> int, blacklist: Blacklist)

  // ---------------------------------------------------------------------------------------
  // processExprent

  /** The variable an expression defines: itself, or the left side of an assignment, when it
    * is a variable marked as a definition. */
  function DefinitionSite(e: Exprent): (r: Option<Exprent>)
    ensures r.Some? ==> r.value.Var? && r.value.definition
    ensures r.Some? <==> (e.Var? && e.definition) || (e.Assignment? && e.left.Var? && e.left.definition)
    ensures r.Some? ==> r.value == (if e.Var? then e else e.left)
  {
    match e
    case Assignment(l, _) => if l.Var? && l.definition then Some(l) else None
    case Var(_, _, d, _) => if d then Some(e) else None
    case _ => None
  }

  /** The outcome of visiting one expression: the updated scope and leaked map, or a
    * conflict `from -> to`. */
  datatype Visit = Visited(vars: Scope, leaked: Scope) | Conflict(from: VarVersionPair, to: VarVersionPair)

  /** The blacklist holds exactly the remap `from -> to`. */
  predicate Blacklisted(bl: Blacklist, from: VarVersionPair, to: VarVersionPair)
  {
    from in bl && bl[from] == to
  }

  /** `processExprent`: a definition of a slot that is already in scope is a conflict with
    * the version in scope, unless that remap is blacklisted; otherwise the definition becomes
    * the slot's version in scope, and in `leaked` too when the statement leaks. */
  function ProcessExprent(ctx: Ctx, e: Exprent, vars: Scope, leaked: Scope, scoped: bool): (r: Visit)
    ensures DefinitionSite(e).None? ==> r == Visited(vars, leaked)
    ensures DefinitionSite(e).Some? ==>
      var v := DefinitionSite(e).value;
      var slot := ctx.orig(v.index);
      (r.Conflict? <==> slot in vars && !Blacklisted(ctx.blacklist, v.Pair(), vars[slot])) &&
      (r.Conflict? ==> r.from == v.Pair() && r.to == vars[slot]) &&
      (r.Visited? ==> r.vars == vars[slot := v.Pair()] &&
                      r.leaked == (if scoped then leaked[slot := v.Pair()] else leaked))
  {
    var d := DefinitionSite(e);
    if d.None? then Visited(vars, leaked)
    else
      var v := d.value;
      var slot := ctx.orig(v.index);
      if slot in vars && !Blacklisted(ctx.blacklist, v.Pair(), vars[slot]) then Conflict(v.Pair(), vars[slot])
      else Visited(vars[slot := v.Pair()], if scoped then leaked[slot := v.Pair()] else leaked)
  }

  /** Blacklisting a conflict silences it: the same visit then succeeds. */
  lemma BlacklistSilences(ctx: Ctx, e: Exprent, vars: Scope, leaked: Scope, scoped: bool)
    requires ProcessExprent(ctx, e, vars, leaked, scoped).Conflict?
    ensures var c := ProcessExprent(ctx, e, vars, leaked, scoped);
            ProcessExprent(Ctx(ctx.orig, ctx.blacklist[c.from := c.to]), e, vars, leaked, scoped).Visited?
  {
  }

  // ---------------------------------------------------------------------------------------
  // isVarReadFirst

  /** `getAllExprents(true)` followed by the expression itself. */
  function ReadList(e: Exprent): seq<Exprent>
  {
    Desc(e) + [e]
  }

  /** Position `k` of the read list is an occurrence of `t` that counts as a read: any
    * occurrence except the left side of the assignment `e` itself (the first child). */
  predicate IsRead(t: VarVersionPair, e: Exprent, lst: seq<Exprent>, k: int)
    requires 0 <= k < |lst|
  {
    lst[k].Var? && lst[k].Pair() == t && !(e.Assignment? && k == 0)
  }

  /** `isVarReadFirst(target, exp)` with no whitelist. */
  predicate ReadFirstExprent(t: VarVersionPair, e: Exprent)
  {
    var lst := ReadList(e);
    exists k :: 0 <= k < |lst| && IsRead(t, e, lst, k)
  }

  /** `isVarReadFirst(var, stat, index)`: the target is read in the objects (or, for a basic
    * block, the expressions) from `index` on. */
  predicate ReadFirstStat(t: VarVersionPair, s: Statement, index: nat)
    decreases s, 1
  {
    if s.exprents.Some? then ReadFirstList(t, s.exprents.value, index)
    else ReadFirstObjs(t, s, index)
  }

  predicate ReadFirstList(t: VarVersionPair, exps: seq<Exprent>, index: nat)
  {
    exists k :: index <= k < |exps| && ReadFirstExprent(t, exps[k])
  }

  predicate ReadFirstObjs(t: VarVersionPair, s: Statement, i: nat)
    decreases s, 0, |SequentialObjects(s)| - i
  {
    var objs := SequentialObjects(s);
    if i >= |objs| then false
    else
      match objs[i]
      case StatObj(c) =>
        assert c in s.stats;
        ReadFirstStat(t, c, 0) || ReadFirstObjs(t, s, i + 1)
      case ExprObj(e) => ReadFirstExprent(t, e) || ReadFirstObjs(t, s, i + 1)
      case NullObj => ReadFirstObjs(t, s, i + 1)
  }

  /** A compiled `InSubtree`. */
  predicate HasVar(e: Exprent, p: VarVersionPair)
  {
    (e.Var? && e.Pair() == p) || exists k :: 0 <= k < |Children(e)| && HasVar(Children(e)[k], p)
  }

  lemma {:induction false} HasVarIsInSubtree(e: Exprent, p: VarVersionPair)
    ensures HasVar(e, p) <==> InSubtree(e, p)
  {
    VariablesOfChildren(e, p);
    forall k | 0 <= k < |Children(e)|
      ensures HasVar(Children(e)[k], p) <==> InSubtree(Children(e)[k], p)
    {
      HasVarIsInSubtree(Children(e)[k], p);
    }
  }

  /** What `isVarReadFirst` finds: in an assignment, an occurrence of the target in the right
    * side, or inside a left side that is not itself a variable; in any other expression, any
    * occurrence. */
  lemma ReadFirstExprentMeans(t: VarVersionPair, e: Exprent)
    ensures e.Assignment? ==>
      (ReadFirstExprent(t, e) <==> InSubtree(e.right, t) || (!e.left.Var? && InSubtree(e.left, t)))
    ensures !e.Assignment? ==> (ReadFirstExprent(t, e) <==> InSubtree(e, t))
  {
    if e.Assignment? {
      ReadFirstAssignment(t, e);
    } else {
      ReadFirstOther(t, e);
    }
  }

  /** The read list of an assignment: left, right, the right side's descendants, the left
    * side's descendants, the assignment. */
  lemma AssignmentReadList(e: Exprent)
    requires e.Assignment?
    ensures ReadList(e) == [e.left, e.right] + Desc(e.right) + Desc(e.left) + [e]
  {
    var l, r := e.left, e.right;
    assert Children(e) == [l, r];
    assert DescFrom(e, 2) == [];
    assert DescFrom(e, 1) == [] + Desc(r);
    assert DescFrom(e, 0) == DescFrom(e, 1) + Desc(l);
    assert Desc(e) == [l, r] + (Desc(r) + Desc(l));
  }

  lemma ReadFirstAssignment(t: VarVersionPair, e: Exprent)
    requires e.Assignment?
    ensures ReadFirstExprent(t, e) <==> InSubtree(e.right, t) || (!e.left.Var? && InSubtree(e.left, t))
  {
    if ReadFirstExprent(t, e) {
      ReadAssignmentFound(t, e);
    }
    if InSubtree(e.right, t) {
      ReadRightFound(t, e);
    }
    if !e.left.Var? && InSubtree(e.left, t) {
      ReadLeftFound(t, e);
    }
  }

  lemma ReadAssignmentFound(t: VarVersionPair, e: Exprent)
    requires e.Assignment? && ReadFirstExprent(t, e)
    ensures InSubtree(e.right, t) || (!e.left.Var? && InSubtree(e.left, t))
  {
    var lst := ReadList(e);
    var l, r := e.left, e.right;
    AssignmentReadList(e);
    var a := 2 + |Desc(r)|;
    var k :| 0 <= k < |lst| && IsRead(t, e, lst, k);
    if 2 <= k < a {
      assert lst[k] == Desc(r)[k - 2];
      assert lst[k] in Desc(r);
    } else if a <= k < a + |Desc(l)| {
      assert lst[k] == Desc(l)[k - a];
      assert lst[k] in Desc(l);
    }
  }

  lemma ReadRightFound(t: VarVersionPair, e: Exprent)
    requires e.Assignment? && InSubtree(e.right, t)
    ensures ReadFirstExprent(t, e)
  {
    var lst := ReadList(e);
    var r := e.right;
    AssignmentReadList(e);
    if r.Var? && r.Pair() == t {
      assert IsRead(t, e, lst, 1);
    } else {
      var x :| x in Desc(r) && x.Var? && x.Pair() == t;
      var i :| 0 <= i < |Desc(r)| && Desc(r)[i] == x;
      assert lst[2 + i] == x;
      assert IsRead(t, e, lst, 2 + i);
    }
  }

  lemma ReadLeftFound(t: VarVersionPair, e: Exprent)
    requires e.Assignment? && !e.left.Var? && InSubtree(e.left, t)
    ensures ReadFirstExprent(t, e)
  {
    var lst := ReadList(e);
    var l, r := e.left, e.right;
    AssignmentReadList(e);
    var a := 2 + |Desc(r)|;
    var x :| x in Desc(l) && x.Var? && x.Pair() == t;
    var i :| 0 <= i < |Desc(l)| && Desc(l)[i] == x;
    assert lst[a + i] == x;
    assert IsRead(t, e, lst, a + i);
  }

  lemma ReadFirstOther(t: VarVersionPair, e: Exprent)
    requires !e.Assignment?
    ensures ReadFirstExprent(t, e) <==> InSubtree(e, t)
  {
    var lst := ReadList(e);
    if ReadFirstExprent(t, e) {
      var k :| 0 <= k < |lst| && IsRead(t, e, lst, k);
      if k < |Desc(e)| {
        assert lst[k] == Desc(e)[k];
        assert lst[k] in Desc(e);
      }
    }
    if InSubtree(e, t) {
      if e.Var? && e.Pair() == t {
        assert IsRead(t, e, lst, |lst| - 1);
      } else {
        var x :| x in Desc(e) && x.Var? && x.Pair() == t;
        var i :| 0 <= i < |Desc(e)| && Desc(e)[i] == x;
        assert lst[i] == x;
        assert IsRead(t, e, lst, i);
      }
    }
  }

  /** The loop of `isVarReadFirst(target, exp)`. */
  method IsVarReadFirstExprent(t: VarVersionPair, e: Exprent) returns (b: bool)
    ensures b == ReadFirstExprent(t, e)
  {
    var lst := GetAllExprents(e, true);
    lst := lst + [e];
    var k := 0;
    while k < |lst|
      invariant k <= |lst| && lst == ReadList(e)
      invariant forall m :: 0 <= m < k ==> !IsRead(t, e, lst, m)
    {
      var ex := lst[k];
      if ex.Var? && ex.index == t.index && ex.version == t.version {
        var allowed := e.Assignment? && k == 0;
        if !allowed {
          assert IsRead(t, e, lst, k);
          return true;
        }
      }
      k := k + 1;
    }
    return false;
  }

  /** `isVarReadFirst(var, stat, index)`. */
  method IsVarReadFirst(t: VarVersionPair, s: Statement, index: nat) returns (b: bool)
    ensures b == ReadFirstStat(t, s, index)
    decreases s, 1
  {
    if s.exprents.None? {
      b := IsVarReadFirstObjs(t, s, index);
    } else {
      b := IsVarReadFirstList(t, s.exprents.value, index);
    }
  }

  /** Its loop over the sequential objects of a compound statement. */
  method IsVarReadFirstObjs(t: VarVersionPair, s: Statement, index: nat) returns (b: bool)
    ensures b == ReadFirstObjs(t, s, index)
    decreases s, 0
  {
    var objs := SequentialObjects(s);
    var x := index;
    while x < |objs|
      invariant ReadFirstObjs(t, s, x) == ReadFirstObjs(t, s, index)
    {
      match objs[x] {
        case StatObj(c) =>
          assert c in s.stats;
          assert ReadFirstObjs(t, s, x) == (ReadFirstStat(t, c, 0) || ReadFirstObjs(t, s, x + 1));
          b := IsVarReadFirst(t, c, 0);
          if b {
            return;
          }
        case ExprObj(e) =>
          assert ReadFirstObjs(t, s, x) == (ReadFirstExprent(t, e) || ReadFirstObjs(t, s, x + 1));
          b := IsVarReadFirstExprent(t, e);
          if b {
            return;
          }
        case NullObj =>
          assert ReadFirstObjs(t, s, x) == ReadFirstObjs(t, s, x + 1);
      }
      x := x + 1;
    }
    assert !ReadFirstObjs(t, s, x);
    return false;
  }

  /** Its loop over the expressions of a basic block. */
  method IsVarReadFirstList(t: VarVersionPair, exps: seq<Exprent>, index: nat) returns (b: bool)
    ensures b == ReadFirstList(t, exps, index)
  {
    var x := index;
    while x < |exps|
      invariant forall k :: index <= k < x && k < |exps| ==> !ReadFirstExprent(t, exps[k])
    {
      b := IsVarReadFirstExprent(t, exps[x]);
      if b {
        return;
      }
      x := x + 1;
    }
    return false;
  }

  // ---------------------------------------------------------------------------------------
  // mergeVars(stat, parent, leaked, blacklist)

  /** The search's answer: a conflict `from -> to` together with the tree as the search left
    * it (a clashing definition in a statement's definitions is removed from it), or no
    * conflict and the definitions the statement leaks to its parent. */
  datatype Merged = Clash(from: VarVersionPair, to: VarVersionPair, tree: Statement) | Clean(leaked: Scope)

  /** Basic blocks, general statements, the root and sequences leak the definitions of
    * their own expressions. */
  predicate Leaks(k: Kind)
  {
    k.BasicBlock? || k.General? || k.Root? || k.Sequence?
  }

  /** The statement's head child leaks: the first child of an if, switch or synchronized
    * statement lies outside the scope the statement opens. */
  predicate HeadLeaks(k: Kind)
  {
    k.If? || k.Switch? || k.Synchronized?
  }

  /** What the `j`-th child's leaked definitions `ln` become in the parent: the part added to
    * the parent's scope and the part added to the parent's own leaked map.  If and else
    * bodies, non-head children of switch and synchronized statements and the children of
    * try and catch statements keep theirs; a head child leaks into both; the children of
    * any other statement leak into the scope only. */
  function ChildScope(k: Kind, j: nat, ln: Scope): (r: (Scope, Scope))
    ensures HeadLeaks(k) && j == 0 ==> r == (ln, ln)
    ensures (HeadLeaks(k) && j > 0) || k.TryCatch? || k.CatchAll? ==> r == (map[], map[])
    ensures !HeadLeaks(k) && !k.TryCatch? && !k.CatchAll? ==> r == (ln, map[])
  {
    match k
    case If(_, _) => if j == 0 then (ln, ln) else (map[], map[])
    case Switch(_) => if j == 0 then (ln, ln) else (map[], map[])
    case Synchronized(_) => if j == 0 then (ln, ln) else (map[], map[])
    case TryCatch(_, _, _) => (map[], map[])
    case CatchAll(_, _, _) => (map[], map[])
    case _ => (ln, map[])
  }

  /** `mergeVars(stat, parent, new HashMap(), blacklist)`. */
  function MergeStat(ctx: Ctx, s: Statement, parent: Scope): Merged
    decreases s, 3
  {
    MergeDefs(ctx, s, 0, parent, map[])
  }

  /** The loop over the statement's own definitions from position `x`. */
  function MergeDefs(ctx: Ctx, s: Statement, x: nat, vars: Scope, leaked: Scope): Merged
    requires x <= |s.varDefs|
    decreases s, 2, |s.varDefs| - x
  {
    if x == |s.varDefs| then MergeBody(ctx, s, vars, leaked)
    else
      var d := s.varDefs[x];
      if d.Var? then
        var slot := ctx.orig(d.index);
        if slot in vars then Clash(d.Pair(), vars[slot], s.(varDefs := s.varDefs[..x] + s.varDefs[x + 1..]))
        else MergeDefs(ctx, s, x + 1, vars[slot := d.Pair()], leaked[slot := d.Pair()])
      else MergeDefs(ctx, s, x + 1, vars, leaked)
  }

  function MergeBody(ctx: Ctx, s: Statement, vars: Scope, leaked: Scope): Merged
    decreases s, 1
  {
    if s.exprents.Some? then MergeLeaf(ctx, s, 0, vars, leaked)
    else
      SequentialStats(s);
      MergeObjs(ctx, s, 0, 0, vars, leaked)
  }

  /** The loop over a basic block's expressions from `i`: a conflict is reported only when
    * the older version is NOT read later in the block. */
  function MergeLeaf(ctx: Ctx, s: Statement, i: nat, vars: Scope, leaked: Scope): Merged
    requires s.exprents.Some? && i <= |s.exprents.value|
    decreases s, 0, |s.exprents.value| - i
  {
    var exps := s.exprents.value;
    if i == |exps| then Clean(leaked)
    else
      match ProcessExprent(ctx, exps[i], vars, leaked, Leaks(s.kind))
      case Conflict(f, t) =>
        if !ReadFirstStat(t, s, i + 1) then Clash(f, t, s) else MergeLeaf(ctx, s, i + 1, vars, leaked)
      case Visited(v, l) => MergeLeaf(ctx, s, i + 1, v, l)
  }

  /** The loop over the sequential objects from `i`, `j` counting the child statements
    * passed: a child's conflict is reported at once; an expression's conflict is reported
    * only when the older version IS read later in the statement. */
  function MergeObjs(ctx: Ctx, s: Statement, i: nat, j: nat, vars: Scope, leaked: Scope): Merged
    requires s.exprents.None? && i <= |SequentialObjects(s)| && j <= |s.stats|
    requires StatsOf(SequentialObjects(s)[i..]) == s.stats[j..]
    decreases s, 0, |SequentialObjects(s)| - i
  {
    var objs := SequentialObjects(s);
    if i == |objs| then Clean(leaked)
    else
      StatsOfStep(objs, i);
      match objs[i]
      case StatObj(c) =>
        assert s.stats[j..][0] == c && s.stats[j..][1..] == s.stats[j + 1..];
        var r := MergeStat(ctx, s.stats[j], vars);
        if r.Clash? then Clash(r.from, r.to, s.(stats := s.stats[j := r.tree]))
        else
          var (toVars, toLeaked) := ChildScope(s.kind, j, r.leaked);
          MergeObjs(ctx, s, i + 1, j + 1, vars + toVars, leaked + toLeaked)
      case ExprObj(e) =>
        (match ProcessExprent(ctx, e, vars, leaked, Leaks(s.kind))
         case Conflict(f, t) =>
           if ReadFirstStat(t, s, i + 1) then Clash(f, t, s) else MergeObjs(ctx, s, i + 1, j, vars, leaked)
         case Visited(v, l) => MergeObjs(ctx, s, i + 1, j, v, l))
      case NullObj => MergeObjs(ctx, s, i + 1, j, vars, leaked)
  }

  /** `mergeVars(stat, parent, leaked, blacklist)`: the loops of the source, recursing into
    * child statements. */
  method MergeVars(ctx: Ctx, s: Statement, parent: Scope) returns (r: Merged)
    ensures r == MergeStat(ctx, s, parent)
    decreases s
  {
    var vars := parent;
    var leaked: Scope := map[];
    var x := 0;
    while x < |s.varDefs|
      invariant x <= |s.varDefs|
      invariant MergeDefs(ctx, s, x, vars, leaked) == MergeStat(ctx, s, parent)
    {
      var d := s.varDefs[x];
      if d.Var? {
        var slot := ctx.orig(d.index);
        if slot in vars {
          return Clash(d.Pair(), vars[slot], s.(varDefs := s.varDefs[..x] + s.varDefs[x + 1..]));
        }
        vars := vars[slot := d.Pair()];
        leaked := leaked[slot := d.Pair()];
      }
      x := x + 1;
    }
    if s.exprents.None? {
      r := MergeObjects(ctx, s, vars, leaked);
    } else {
      r := MergeExprents(ctx, s, vars, leaked);
    }
  }

  /** The loop over a basic block's expressions. */
  method MergeExprents(ctx: Ctx, s: Statement, vars0: Scope, leaked0: Scope) returns (r: Merged)
    requires s.exprents.Some?
    ensures r == MergeBody(ctx, s, vars0, leaked0)
  {
    var exps := s.exprents.value;
    var vars, leaked := vars0, leaked0;
    var i := 0;
    while i < |exps|
      invariant i <= |exps|
      invariant MergeLeaf(ctx, s, i, vars, leaked) == MergeBody(ctx, s, vars0, leaked0)
    {
      var ret := ProcessExprent(ctx, exps[i], vars, leaked, Leaks(s.kind));
      if ret.Conflict? {
        var read := IsVarReadFirst(ret.to, s, i + 1);
        if !read {
          return Clash(ret.from, ret.to, s);
        }
      } else {
        vars, leaked := ret.vars, ret.leaked;
      }
      i := i + 1;
    }
    r := Clean(leaked);
  }

  /** The loop over a compound statement's sequential objects. */
  method MergeObjects(ctx: Ctx, s: Statement, vars0: Scope, leaked0: Scope) returns (r: Merged)
    requires s.exprents.None?
    ensures r == MergeBody(ctx, s, vars0, leaked0)
    decreases s, 1
  {
    var objs := SequentialObjects(s);
    SequentialStats(s);
    var vars, leaked := vars0, leaked0;
    var i: nat, j: nat := 0, 0;
    while i < |objs|
      invariant i <= |objs| && j <= |s.stats|
      invariant StatsOf(objs[i..]) == s.stats[j..]
      invariant MergeObjs(ctx, s, i, j, vars, leaked) == MergeBody(ctx, s, vars0, leaked0)
    {
      var stop;
      stop, r, j, vars, leaked := MergeObject(ctx, s, i, j, vars, leaked);
      if stop {
        return;
      }
      i := i + 1;
    }
    r := Clean(leaked);
  }

  /** One object of the loop: either the search stops with `r`, or it goes on with the
    * child count, scope and leaked map for the next object. */
  method MergeObject(ctx: Ctx, s: Statement, i: nat, j: nat, vars: Scope, leaked: Scope)
    returns (stop: bool, r: Merged, j': nat, vars': Scope, leaked': Scope)
    requires s.exprents.None? && i < |SequentialObjects(s)| && j <= |s.stats|
    requires StatsOf(SequentialObjects(s)[i..]) == s.stats[j..]
    ensures stop ==> r == MergeObjs(ctx, s, i, j, vars, leaked)
    ensures !stop ==> j' <= |s.stats| && StatsOf(SequentialObjects(s)[i + 1..]) == s.stats[j'..] &&
                      MergeObjs(ctx, s, i + 1, j', vars', leaked') == MergeObjs(ctx, s, i, j, vars, leaked)
    decreases s, 0, 1
  {
    var objs := SequentialObjects(s);
    StatsOfStep(objs, i);
    stop, r, j', vars', leaked' := false, Clean(leaked), j, vars, leaked;
    match objs[i] {
      case StatObj(c) =>
        stop, r, j', vars', leaked' := MergeStatObject(ctx, s, i, j, vars, leaked);
      case ExprObj(e) =>
        var ret := ProcessExprent(ctx, e, vars, leaked, Leaks(s.kind));
        assert MergeObjs(ctx, s, i, j, vars, leaked) ==
          (match ret
           case Conflict(f, t) =>
             if ReadFirstStat(t, s, i + 1) then Clash(f, t, s) else MergeObjs(ctx, s, i + 1, j, vars, leaked)
           case Visited(v, l) => MergeObjs(ctx, s, i + 1, j, v, l));
        if ret.Conflict? {
          var read := IsVarReadFirst(ret.to, s, i + 1);
          if read {
            return true, Clash(ret.from, ret.to, s), j, vars, leaked;
          }
        } else {
          vars', leaked' := ret.vars, ret.leaked;
        }
      case NullObj =>
        assert MergeObjs(ctx, s, i, j, vars, leaked) == MergeObjs(ctx, s, i + 1, j, vars, leaked);
    }
  }

  /** A child statement among the objects: its own search, whose conflict is reported at
    * once, or whose scope and leaked map flow on to the next object. */
  method MergeStatObject(ctx: Ctx, s: Statement, i: nat, j: nat, vars: Scope, leaked: Scope)
    returns (stop: bool, r: Merged, j': nat, vars': Scope, leaked': Scope)
    requires s.exprents.None? && i < |SequentialObjects(s)| && j <= |s.stats|
    requires SequentialObjects(s)[i].StatObj?
    requires StatsOf(SequentialObjects(s)[i..]) == s.stats[j..]
    ensures stop ==> r == MergeObjs(ctx, s, i, j, vars, leaked)
    ensures !stop ==> j' <= |s.stats| && StatsOf(SequentialObjects(s)[i + 1..]) == s.stats[j'..] &&
                      MergeObjs(ctx, s, i + 1, j', vars', leaked') == MergeObjs(ctx, s, i, j, vars, leaked)
    decreases s, 0, 0
  {
    var objs := SequentialObjects(s);
    ObjStatHead(objs, i, s.stats, j);
    var sub := MergeVars(ctx, s.stats[j], vars);
    if sub.Clash? {
      assert MergeObjs(ctx, s, i, j, vars, leaked) == Clash(sub.from, sub.to, s.(stats := s.stats[j := sub.tree]));
      return true, Clash(sub.from, sub.to, s.(stats := s.stats[j := sub.tree])), j, vars, leaked;
    }
    var (toVars, toLeaked) := ChildScope(s.kind, j, sub.leaked);
    assert MergeObjs(ctx, s, i, j, vars, leaked) == MergeObjs(ctx, s, i + 1, j + 1, vars + toVars, leaked + toLeaked);
    stop, r, j', vars', leaked' := false, Clean(leaked), j + 1, vars + toVars, leaked + toLeaked;
  }

  // ---------------------------------------------------------------------------------------
  // What the search leaks and what it drops

  /** The statement's own expressions: a basic block's list, or the expressions among the
    * sequential objects. */
  function OwnExprents(s: Statement): seq<Exprent>
  {
    if s.exprents.Some? then s.exprents.value else ExprsOf(SequentialObjects(s))
  }

  /** One of the statement's definitions is a variable of original slot `k`. */
  ghost predicate DefinesSlot(ctx: Ctx, s: Statement, k: int)
  {
    exists x :: 0 <= x < |s.varDefs| && s.varDefs[x].Var? && ctx.orig(s.varDefs[x].index) == k
  }

  /** The statement leaks its own expressions' definitions, and one of them is of slot `k`. */
  ghost predicate OwnLeak(ctx: Ctx, s: Statement, k: int)
  {
    Leaks(s.kind) &&
    exists e :: e in OwnExprents(s) && DefinitionSite(e).Some? && ctx.orig(DefinitionSite(e).value.index) == k
  }

  /** The statement has a head child that leaks slot `k` in some scope. */
  ghost predicate HeadLeak(ctx: Ctx, s: Statement, k: int)
  {
    HeadLeaks(s.kind) && |s.stats| > 0 &&
    exists sc :: MergeStat(ctx, s.stats[0], sc).Clean? && k in MergeStat(ctx, s.stats[0], sc).leaked
  }

  lemma {:induction false} MergeLeafLeaks(ctx: Ctx, s: Statement, i: nat, vars: Scope, leaked: Scope)
    requires s.exprents.Some? && i <= |s.exprents.value|
    requires MergeLeaf(ctx, s, i, vars, leaked).Clean?
    ensures forall k :: k in MergeLeaf(ctx, s, i, vars, leaked).leaked ==> k in leaked || OwnLeak(ctx, s, k)
    decreases |s.exprents.value| - i
  {
    var exps := s.exprents.value;
    if i < |exps| {
      var v := ProcessExprent(ctx, exps[i], vars, leaked, Leaks(s.kind));
      if v.Visited? {
        MergeLeafLeaks(ctx, s, i + 1, v.vars, v.leaked);
        assert exps[i] in OwnExprents(s);
      } else {
        MergeLeafLeaks(ctx, s, i + 1, vars, leaked);
      }
    }
  }

  /** One step of `MergeObjs` at a child statement. */
  lemma MergeObjsStatStep(ctx: Ctx, s: Statement, i: nat, j: nat, vars: Scope, leaked: Scope)
    requires s.exprents.None? && i < |SequentialObjects(s)| && j <= |s.stats|
    requires StatsOf(SequentialObjects(s)[i..]) == s.stats[j..]
    requires SequentialObjects(s)[i].StatObj?
    ensures j < |s.stats| && StatsOf(SequentialObjects(s)[i + 1..]) == s.stats[j + 1..]
    ensures var r := MergeStat(ctx, s.stats[j], vars);
            MergeObjs(ctx, s, i, j, vars, leaked) ==
              if r.Clash? then Clash(r.from, r.to, s.(stats := s.stats[j := r.tree]))
              else
                var sc := ChildScope(s.kind, j, r.leaked);
                MergeObjs(ctx, s, i + 1, j + 1, vars + sc.0, leaked + sc.1)
  {
    var objs := SequentialObjects(s);
    StatsOfStep(objs, i);
    assert s.stats[j..][0] == objs[i].stat && s.stats[j..][1..] == s.stats[j + 1..];
  }

  /** One step of `MergeObjs` at an expression. */
  lemma MergeObjsExprStep(ctx: Ctx, s: Statement, i: nat, j: nat, vars: Scope, leaked: Scope)
    requires s.exprents.None? && i < |SequentialObjects(s)| && j <= |s.stats|
    requires StatsOf(SequentialObjects(s)[i..]) == s.stats[j..]
    requires SequentialObjects(s)[i].ExprObj?
    ensures StatsOf(SequentialObjects(s)[i + 1..]) == s.stats[j..]
    ensures var v := ProcessExprent(ctx, SequentialObjects(s)[i].expr, vars, leaked, Leaks(s.kind));
            MergeObjs(ctx, s, i, j, vars, leaked) ==
              if v.Visited? then MergeObjs(ctx, s, i + 1, j, v.vars, v.leaked)
              else if ReadFirstStat(v.to, s, i + 1) then Clash(v.from, v.to, s)
              else MergeObjs(ctx, s, i + 1, j, vars, leaked)
  {
    StatsOfStep(SequentialObjects(s), i);
  }

  /** One step of `MergeObjs` at a missing expression. */
  lemma MergeObjsNullStep(ctx: Ctx, s: Statement, i: nat, j: nat, vars: Scope, leaked: Scope)
    requires s.exprents.None? && i < |SequentialObjects(s)| && j <= |s.stats|
    requires StatsOf(SequentialObjects(s)[i..]) == s.stats[j..]
    requires SequentialObjects(s)[i].NullObj?
    ensures StatsOf(SequentialObjects(s)[i + 1..]) == s.stats[j..]
    ensures MergeObjs(ctx, s, i, j, vars, leaked) == MergeObjs(ctx, s, i + 1, j, vars, leaked)
  {
    StatsOfStep(SequentialObjects(s), i);
  }

  /** The leaks of the objects from `i` on. */
  ghost predicate ObjsLeakFrom(ctx: Ctx, s: Statement, i: nat, j: nat, vars: Scope, leaked: Scope)
    requires s.exprents.None? && i <= |SequentialObjects(s)| && j <= |s.stats|
    requires StatsOf(SequentialObjects(s)[i..]) == s.stats[j..]
  {
    var m := MergeObjs(ctx, s, i, j, vars, leaked);
    m.Clean? ==> forall k :: k in m.leaked ==> k in leaked || OwnLeak(ctx, s, k) || HeadLeak(ctx, s, k)
  }

  lemma {:induction false} MergeObjsLeaks(ctx: Ctx, s: Statement, i: nat, j: nat, vars: Scope, leaked: Scope)
    requires s.exprents.None? && i <= |SequentialObjects(s)| && j <= |s.stats|
    requires StatsOf(SequentialObjects(s)[i..]) == s.stats[j..]
    ensures ObjsLeakFrom(ctx, s, i, j, vars, leaked)
    decreases |SequentialObjects(s)| - i, 1
  {
    var objs := SequentialObjects(s);
    if i < |objs| {
      if objs[i].StatObj? {
        ChildLeaks(ctx, s, i, j, vars, leaked);
      } else if objs[i].ExprObj? {
        ExprLeaks(ctx, s, i, j, vars, leaked);
      } else {
        MergeObjsNullStep(ctx, s, i, j, vars, leaked);
        MergeObjsLeaks(ctx, s, i + 1, j, vars, leaked);
      }
    }
  }

  lemma {:induction false} ChildLeaks(ctx: Ctx, s: Statement, i: nat, j: nat, vars: Scope, leaked: Scope)
    requires s.exprents.None? && i < |SequentialObjects(s)| && j <= |s.stats|
    requires StatsOf(SequentialObjects(s)[i..]) == s.stats[j..]
    requires SequentialObjects(s)[i].StatObj?
    ensures ObjsLeakFrom(ctx, s, i, j, vars, leaked)
    decreases |SequentialObjects(s)| - i, 0
  {
    MergeObjsStatStep(ctx, s, i, j, vars, leaked);
    var r := MergeStat(ctx, s.stats[j], vars);
    if r.Clean? {
      var (toVars, toLeaked) := ChildScope(s.kind, j, r.leaked);
      MergeObjsLeaks(ctx, s, i + 1, j + 1, vars + toVars, leaked + toLeaked);
      forall k | k in toLeaked
        ensures HeadLeak(ctx, s, k)
      {
        assert MergeStat(ctx, s.stats[0], vars).Clean?;
      }
    }
  }

  lemma {:induction false} ExprLeaks(ctx: Ctx, s: Statement, i: nat, j: nat, vars: Scope, leaked: Scope)
    requires s.exprents.None? && i < |SequentialObjects(s)| && j <= |s.stats|
    requires StatsOf(SequentialObjects(s)[i..]) == s.stats[j..]
    requires SequentialObjects(s)[i].ExprObj?
    ensures ObjsLeakFrom(ctx, s, i, j, vars, leaked)
    decreases |SequentialObjects(s)| - i, 0
  {
    var objs := SequentialObjects(s);
    MergeObjsExprStep(ctx, s, i, j, vars, leaked);
    var v := ProcessExprent(ctx, objs[i].expr, vars, leaked, Leaks(s.kind));
    if v.Visited? {
      MergeObjsLeaks(ctx, s, i + 1, j, v.vars, v.leaked);
      assert objs[i].expr in OwnExprents(s);
    } else {
      MergeObjsLeaks(ctx, s, i + 1, j, vars, leaked);
    }
  }

  lemma {:induction false} MergeDefsLeaks(ctx: Ctx, s: Statement, x: nat, vars: Scope, leaked: Scope)
    requires x <= |s.varDefs|
    requires MergeDefs(ctx, s, x, vars, leaked).Clean?
    ensures forall k :: k in MergeDefs(ctx, s, x, vars, leaked).leaked ==>
              k in leaked || DefinesSlot(ctx, s, k) || OwnLeak(ctx, s, k) || HeadLeak(ctx, s, k)
    decreases |s.varDefs| - x
  {
    if x < |s.varDefs| {
      var d := s.varDefs[x];
      if d.Var? {
        MergeDefsLeaks(ctx, s, x + 1, vars[ctx.orig(d.index) := d.Pair()], leaked[ctx.orig(d.index) := d.Pair()]);
      } else {
        MergeDefsLeaks(ctx, s, x + 1, vars, leaked);
      }
    } else if s.exprents.Some? {
      MergeLeafLeaks(ctx, s, 0, vars, leaked);
    } else {
      SequentialStats(s);
      MergeObjsLeaks(ctx, s, 0, 0, vars, leaked);
    }
  }

  /** Scope leakage: a statement leaks only the slots of its own definitions, of the
    * definitions in its own expressions when it is a basic block, sequence, general or root
    * statement, and of what its head child leaks when it is an if, switch or synchronized
    * statement.  Nothing defined in an if or else body, in a later child of a switch or
    * synchronized statement, in a try or catch body, or in any child of a sequence or loop
    * reaches the parent. */
  lemma ScopeLeakage(ctx: Ctx, s: Statement, parent: Scope)
    requires MergeStat(ctx, s, parent).Clean?
    ensures forall k :: k in MergeStat(ctx, s, parent).leaked ==>
              DefinesSlot(ctx, s, k) || OwnLeak(ctx, s, k) || HeadLeak(ctx, s, k)
  {
    MergeDefsLeaks(ctx, s, 0, parent, map[]);
  }

  /** The tree a conflict leaves: unchanged, or with one definition of `from` removed from
    * the definitions of one statement. */
  ghost predicate Dropped(s: Statement, tree: Statement, from: VarVersionPair)
    decreases s
  {
    tree == s
    || (tree == s.(varDefs := tree.varDefs) &&
        exists x :: 0 <= x < |s.varDefs| && s.varDefs[x].Var? && s.varDefs[x].Pair() == from &&
                    tree.varDefs == s.varDefs[..x] + s.varDefs[x + 1..])
    || (|tree.stats| == |s.stats| &&
        exists j :: 0 <= j < |s.stats| && tree == s.(stats := s.stats[j := tree.stats[j]]) &&
                    Dropped(s.stats[j], tree.stats[j], from))
  }

  /** What a conflict reports and does: a conflict found in an expression is never a
    * blacklisted remap and leaves the tree as it was; a conflict among a statement's
    * definitions removes that definition. */
  ghost predicate ClashShape(ctx: Ctx, s: Statement, m: Merged)
  {
    m.Clash? ==> Dropped(s, m.tree, m.from) && (m.tree == s ==> !Blacklisted(ctx.blacklist, m.from, m.to))
  }

  lemma {:induction false} MergeLeafClash(ctx: Ctx, s: Statement, i: nat, vars: Scope, leaked: Scope)
    requires s.exprents.Some? && i <= |s.exprents.value|
    ensures var m := MergeLeaf(ctx, s, i, vars, leaked);
            m.Clash? ==> m.tree == s && !Blacklisted(ctx.blacklist, m.from, m.to)
    decreases |s.exprents.value| - i
  {
    var exps := s.exprents.value;
    if i < |exps| {
      var v := ProcessExprent(ctx, exps[i], vars, leaked, Leaks(s.kind));
      if v.Visited? {
        MergeLeafClash(ctx, s, i + 1, v.vars, v.leaked);
      } else {
        MergeLeafClash(ctx, s, i + 1, vars, leaked);
      }
    }
  }

  lemma {:induction false} MergeObjsClash(ctx: Ctx, s: Statement, i: nat, j: nat, vars: Scope, leaked: Scope)
    requires s.exprents.None? && i <= |SequentialObjects(s)| && j <= |s.stats|
    requires StatsOf(SequentialObjects(s)[i..]) == s.stats[j..]
    ensures ClashShape(ctx, s, MergeObjs(ctx, s, i, j, vars, leaked))
    decreases s, 0, |SequentialObjects(s)| - i, 1
  {
    var objs := SequentialObjects(s);
    if i < |objs| {
      if objs[i].StatObj? {
        MergeObjsClashAtStat(ctx, s, i, j, vars, leaked);
      } else if objs[i].ExprObj? {
        MergeObjsClashAtExpr(ctx, s, i, j, vars, leaked);
      } else {
        MergeObjsNullStep(ctx, s, i, j, vars, leaked);
        MergeObjsClash(ctx, s, i + 1, j, vars, leaked);
      }
    }
  }

  lemma {:induction false} MergeObjsClashAtStat(ctx: Ctx, s: Statement, i: nat, j: nat, vars: Scope, leaked: Scope)
    requires s.exprents.None? && i < |SequentialObjects(s)| && j <= |s.stats|
    requires StatsOf(SequentialObjects(s)[i..]) == s.stats[j..]
    requires SequentialObjects(s)[i].StatObj?
    ensures ClashShape(ctx, s, MergeObjs(ctx, s, i, j, vars, leaked))
    decreases s, 0, |SequentialObjects(s)| - i, 0
  {
    MergeObjsStatStep(ctx, s, i, j, vars, leaked);
    var r := MergeStat(ctx, s.stats[j], vars);
    MergeStatClash(ctx, s.stats[j], vars);
    if r.Clash? {
      ClashInChild(ctx, s, j, r);
    } else {
      var (toVars, toLeaked) := ChildScope(s.kind, j, r.leaked);
      MergeObjsClash(ctx, s, i + 1, j + 1, vars + toVars, leaked + toLeaked);
    }
  }

  lemma {:induction false} MergeObjsClashAtExpr(ctx: Ctx, s: Statement, i: nat, j: nat, vars: Scope, leaked: Scope)
    requires s.exprents.None? && i < |SequentialObjects(s)| && j <= |s.stats|
    requires StatsOf(SequentialObjects(s)[i..]) == s.stats[j..]
    requires SequentialObjects(s)[i].ExprObj?
    ensures ClashShape(ctx, s, MergeObjs(ctx, s, i, j, vars, leaked))
    decreases s, 0, |SequentialObjects(s)| - i, 0
  {
    MergeObjsExprStep(ctx, s, i, j, vars, leaked);
    var v := ProcessExprent(ctx, SequentialObjects(s)[i].expr, vars, leaked, Leaks(s.kind));
    if v.Visited? {
      MergeObjsClash(ctx, s, i + 1, j, v.vars, v.leaked);
    } else {
      MergeObjsClash(ctx, s, i + 1, j, vars, leaked);
    }
  }

  /** A conflict met in child `j` keeps its shape once the child is put back. */
  lemma ClashInChild(ctx: Ctx, s: Statement, j: nat, r: Merged)
    requires j < |s.stats| && r.Clash? && ClashShape(ctx, s.stats[j], r)
    ensures ClashShape(ctx, s, Clash(r.from, r.to, s.(stats := s.stats[j := r.tree])))
  {
    var tree := s.(stats := s.stats[j := r.tree]);
    assert tree.stats[j] == r.tree;
    if tree == s {
      assert r.tree == s.stats[j];
    }
  }

  lemma {:induction false} MergeDefsClash(ctx: Ctx, s: Statement, x: nat, vars: Scope, leaked: Scope)
    requires x <= |s.varDefs|
    ensures ClashShape(ctx, s, MergeDefs(ctx, s, x, vars, leaked))
    decreases s, 1, |s.varDefs| - x
  {
    if x < |s.varDefs| {
      var d := s.varDefs[x];
      if d.Var? {
        var slot := ctx.orig(d.index);
        if slot in vars {
          var tree := s.(varDefs := s.varDefs[..x] + s.varDefs[x + 1..]);
          assert |tree.varDefs| < |s.varDefs|;
        } else {
          MergeDefsClash(ctx, s, x + 1, vars[slot := d.Pair()], leaked[slot := d.Pair()]);
        }
      } else {
        MergeDefsClash(ctx, s, x + 1, vars, leaked);
      }
    } else if s.exprents.Some? {
      MergeLeafClash(ctx, s, 0, vars, leaked);
    } else {
      SequentialStats(s);
      MergeObjsClash(ctx, s, 0, 0, vars, leaked);
    }
  }

  /** A conflict that the search reports either removed the clashing definition `from` from
    * one statement's definitions, or was found in an expression, left the tree unchanged,
    * and is not a blacklisted remap. */
  lemma {:induction false} MergeStatClash(ctx: Ctx, s: Statement, parent: Scope)
    ensures ClashShape(ctx, s, MergeStat(ctx, s, parent))
    decreases s, 2
  {
    MergeDefsClash(ctx, s, 0, parent, map[]);
  }
}
