/**
 * `setNonFinal`: the last step of the variable pass marks as not final every variable that
 * is assigned (or incremented or decremented) where it is not being declared and where it
 * is already initialised.  The walk threads a set of versions still awaiting their first
 * assignment: a declaration adds its version, and the first assignment to it removes it
 * again; an assignment to a version not in the set is a reassignment.
 *
 * The marks `varproc.setVarFinal(pair, VAR_NON_FINAL)` are collected in a set.
 * `DoStatement.getInitExprentList()` and `getIncExprentList()` are taken to be present for
 * every loop.
 */
module VarFinal {
  import opened Wrappers
  import opened Exprents
  import opened Statements

  /** `FunctionExprent.FUNCTION_IMM` .. `FUNCTION_PPI`: `x++`, `x--`, `++x`, `--x`. */
  predicate IsIncDec(funcType: int)
  {
    FUNCTION_IMM <= funcType <= FUNCTION_PPI
  }

  /** The walk's state: the versions awaiting their first assignment, and the versions marked
    * not final. */
  datatype Walk = Walk(unInit: set<VarVersionPair>, nonFinal: set<VarVersionPair>)

  /** The variable an expression writes: the left side of an assignment, or the operand of
    * an increment or decrement, when that is a variable; an increment with no operand makes
    * `get(0)` throw. */
  function Written(e: Exprent): (r: Result<Option<Exprent>>)
    ensures r.Success? && r.value.Some? ==> r.value.value.Var?
    ensures r.Failure? <==> e.Function? && IsIncDec(e.funcType) && |e.operands| == 0
  {
    match e
    case Assignment(l, _) => Success(if l.Var? then Some(l) else None)
    case Function(t, ops) =>
      if IsIncDec(t) then
        if |ops| == 0 then Failure("IndexOutOfBoundsException")
        else Success(if ops[0].Var? then Some(ops[0]) else None)
      else Success(None)
    case _ => Success(None)
  }

  /** The rule for one node: a written variable that is not a declaration is either the first
    * assignment to a version awaiting one (which then no longer awaits it) or a
    * reassignment (which marks it). */
  function Mark(e: Exprent, w: Walk): (r: Result<Walk>)
    ensures r.Failure? <==> Written(e).Failure?
    ensures r.Success? && Written(e).value.Some? && !Written(e).value.value.definition ==>
      var p := Written(e).value.value.Pair();
      (p in w.unInit ==> r.value == Walk(w.unInit - {p}, w.nonFinal)) &&
      (p !in w.unInit ==> r.value == Walk(w.unInit, w.nonFinal + {p}))
    ensures r.Success? && (Written(e).value.None? || Written(e).value.value.definition) ==> r.value == w
  {
    match Written(e)
    case Failure(err) => Failure(err)
    case Success(v) =>
      if v.None? || v.value.definition then Success(w)
      else
        var p := v.value.Pair();
        if p in w.unInit then Success(Walk(w.unInit - {p}, w.nonFinal))
        else Success(Walk(w.unInit, w.nonFinal + {p}))
  }

  /** `setNonFinal(exp, unInitialized)`: the node, then its children in order. */
  function FinalExprent(e: Exprent, w: Walk): Result<Walk>
    decreases e, 1
  {
    match Mark(e, w)
    case Failure(err) => Failure(err)
    case Success(w1) => FinalChildren(e, 0, w1)
  }

  function FinalChildren(e: Exprent, j: nat, w: Walk): Result<Walk>
    requires j <= |Children(e)|
    decreases e, 0, |Children(e)| - j
  {
    if j == |Children(e)| then Success(w)
    else
      match FinalExprent(Children(e)[j], w)
      case Failure(err) => Failure(err)
      case Success(w1) => FinalChildren(e, j + 1, w1)
  }

  /** The walk over an expression and its children. */
  method SetNonFinalExprent(e: Exprent, w: Walk) returns (r: Result<Walk>)
    ensures r == FinalExprent(e, w)
    decreases e
  {
    r := Mark(e, w);
    if r.Failure? {
      return;
    }
    var cs := Children(e);
    var j := 0;
    while j < |cs|
      invariant j <= |cs| && r.Success?
      invariant FinalChildren(e, j, r.value) == FinalExprent(e, w)
    {
      var sub := SetNonFinalExprent(cs[j], r.value);
      if sub.Failure? {
        return sub;
      }
      r := sub;
      j := j + 1;
    }
  }

  /** `p` is written, not as a declaration, somewhere in the subtree of `e`. */
  predicate Reassigns(e: Exprent, p: VarVersionPair)
  {
    (Written(e).Success? && Written(e).value.Some? && !Written(e).value.value.definition &&
     Written(e).value.value.Pair() == p) ||
    exists k :: 0 <= k < |Children(e)| && Reassigns(Children(e)[k], p)
  }

  /** The expression walk marks only versions written in the expression, never adds a
    * version to those awaiting an assignment, and never unmarks one. */
  lemma {:induction false} FinalExprentMarks(e: Exprent, w: Walk)
    requires FinalExprent(e, w).Success?
    ensures var r := FinalExprent(e, w).value;
      w.nonFinal <= r.nonFinal && r.unInit <= w.unInit &&
      (forall p :: p in r.nonFinal && p !in w.nonFinal ==> Reassigns(e, p)) &&
      (forall p :: p in w.unInit && p !in r.unInit ==> Reassigns(e, p))
    decreases e, 1
  {
    var w1 := Mark(e, w).value;
    var r := FinalExprent(e, w).value;
    assert FinalExprent(e, w) == FinalChildren(e, 0, w1);
    FinalChildrenMarks(e, 0, w1);
    forall p | p in r.nonFinal && p !in w.nonFinal
      ensures Reassigns(e, p)
    {
      if p !in w1.nonFinal {
        var k :| 0 <= k < |Children(e)| && Reassigns(Children(e)[k], p);
      }
    }
    forall p | p in w.unInit && p !in r.unInit
      ensures Reassigns(e, p)
    {
      if p in w1.unInit {
        var k :| 0 <= k < |Children(e)| && Reassigns(Children(e)[k], p);
      }
    }
  }

  lemma {:induction false} FinalChildrenMarks(e: Exprent, j: nat, w: Walk)
    requires j <= |Children(e)| && FinalChildren(e, j, w).Success?
    ensures var r := FinalChildren(e, j, w).value;
      w.nonFinal <= r.nonFinal && r.unInit <= w.unInit &&
      (forall p :: p in r.nonFinal && p !in w.nonFinal ==> exists k :: j <= k < |Children(e)| && Reassigns(Children(e)[k], p)) &&
      (forall p :: p in w.unInit && p !in r.unInit ==> exists k :: j <= k < |Children(e)| && Reassigns(Children(e)[k], p))
    decreases e, 0, |Children(e)| - j
  {
    if j < |Children(e)| {
      var w1 := FinalExprent(Children(e)[j], w).value;
      var r := FinalChildren(e, j, w).value;
      assert FinalChildren(e, j, w) == FinalChildren(e, j + 1, w1);
      FinalExprentMarks(Children(e)[j], w);
      FinalChildrenMarks(e, j + 1, w1);
      forall p | p in r.nonFinal && p !in w.nonFinal
        ensures exists k :: j <= k < |Children(e)| && Reassigns(Children(e)[k], p)
      {
        if p in w1.nonFinal {
          assert Reassigns(Children(e)[j], p);
        }
      }
      forall p | p in w.unInit && p !in r.unInit
        ensures exists k :: j <= k < |Children(e)| && Reassigns(Children(e)[k], p)
      {
        if p !in w1.unInit {
          assert Reassigns(Children(e)[j], p);
        }
      }
    }
  }

  /** A reassignment is marked: when the expression writes a variable that is not a
    * declaration and its version is not awaiting an assignment, the version ends up marked;
    * when it is awaiting one, it no longer is. */
  lemma NodeRule(e: Exprent, w: Walk)
    requires FinalExprent(e, w).Success?
    requires Written(e).value.Some? && !Written(e).value.value.definition
    ensures var p := Written(e).value.value.Pair();
            var r := FinalExprent(e, w).value;
            (p !in w.unInit ==> p in r.nonFinal) && (p in w.unInit ==> p !in r.unInit)
  {
    var w1 := Mark(e, w).value;
    FinalChildrenMarks(e, 0, w1);
  }

  // ---------------------------------------------------------------------------------------
  // setNonFinal(stat, unInitialized)

  /** The loop over a basic block's expressions from `k`: a bare variable declares its
    * version as awaiting an assignment; any other expression is walked. */
  function FinalList(exps: seq<Exprent>, k: nat, w: Walk): Result<Walk>
    requires k <= |exps|
    decreases |exps| - k
  {
    if k == |exps| then Success(w)
    else if exps[k].Var? then FinalList(exps, k + 1, Walk(w.unInit + {exps[k].Pair()}, w.nonFinal))
    else
      match FinalExprent(exps[k], w)
      case Failure(err) => Failure(err)
      case Success(w1) => FinalList(exps, k + 1, w1)
  }

  /** The versions of the statement's definitions; the cast throws for one that is not a
    * variable. */
  function DefPairs(defs: seq<Exprent>): (r: Result<set<VarVersionPair>>)
    ensures r.Success? <==> forall k :: 0 <= k < |defs| ==> defs[k].Var?
    ensures r.Success? ==> r.value == set k | 0 <= k < |defs| :: defs[k].Pair()
  {
    if forall k :: 0 <= k < |defs| ==> defs[k].Var? then Success(set k | 0 <= k < |defs| :: defs[k].Pair())
    else Failure("ClassCastException")
  }

  /** `setNonFinal(expr)` of an optional expression: `null` is skipped. */
  function FinalOption(e: Option<Exprent>, w: Walk): Result<Walk>
  {
    if e.None? then Success(w) else FinalExprent(e.value, w)
  }

  /** An if statement with both an if body and an else body: its head, if body and else
    * body are its three children. */
  predicate HasBothBranches(s: Statement)
  {
    s.kind.If? && |s.stats| == 3
  }

  /** `setNonFinal(stat, unInitialized)`: the statement's expressions, its definitions
    * (except for loops), a loop's init and increment, then the children in order; an if
    * statement with both branches walks its else body with the set as it was after the head,
    * whatever the if body did to it. */
  function FinalStat(s: Statement, w: Walk): Result<Walk>
    decreases s, 1
  {
    var w1 := if s.exprents.Some? then FinalList(s.exprents.value, 0, w) else Success(w);
    if w1.Failure? then w1
    else
      var w2 :=
        if |s.varDefs| > 0 && !s.kind.Do? then
          (match DefPairs(s.varDefs)
           case Failure(err) => Failure(err)
           case Success(ps) => Success(Walk(w1.value.unInit + ps, w1.value.nonFinal)))
        else Success(w1.value);
      if w2.Failure? then w2
      else if s.kind.Do? then
        match FinalOption(s.kind.init, w2.value)
        case Failure(err) => Failure(err)
        case Success(w3) =>
          match FinalOption(s.kind.inc, w3)
          case Failure(err) => Failure(err)
          case Success(w4) => FinalStats(s, 0, w4)
      else if HasBothBranches(s) then
        match FinalStat(s.stats[0], w2.value)
        case Failure(err) => Failure(err)
        case Success(w3) =>
          match FinalStat(s.stats[1], w3)
          case Failure(err) => Failure(err)
          case Success(w4) => FinalStat(s.stats[2], Walk(w3.unInit, w4.nonFinal))
      else FinalStats(s, 0, w2.value)
  }

  function FinalStats(s: Statement, j: nat, w: Walk): Result<Walk>
    requires j <= |s.stats|
    decreases s, 0, |s.stats| - j
  {
    if j == |s.stats| then Success(w)
    else
      match FinalStat(s.stats[j], w)
      case Failure(err) => Failure(err)
      case Success(w1) => FinalStats(s, j + 1, w1)
  }

  /** The loop over a basic block's expressions. */
  method SetNonFinalList(exps: seq<Exprent>, w: Walk) returns (r: Result<Walk>)
    ensures r == FinalList(exps, 0, w)
  {
    r := Success(w);
    var k := 0;
    while k < |exps|
      invariant k <= |exps| && r.Success?
      invariant FinalList(exps, k, r.value) == FinalList(exps, 0, w)
    {
      var exp := exps[k];
      if exp.Var? {
        r := Success(Walk(r.value.unInit + {exp.Pair()}, r.value.nonFinal));
      } else {
        r := SetNonFinalExprent(exp, r.value);
        if r.Failure? {
          return;
        }
      }
      k := k + 1;
    }
  }

  /** `setNonFinal(stat, unInitialized)` with its loops. */
  method SetNonFinal(s: Statement, w: Walk) returns (r: Result<Walk>)
    ensures r == FinalStat(s, w)
    decreases s
  {
    r := Success(w);
    if s.exprents.Some? && |s.exprents.value| > 0 {
      r := SetNonFinalList(s.exprents.value, w);
      if r.Failure? {
        return;
      }
    }
    if |s.varDefs| > 0 && !s.kind.Do? {
      var u := r.value.unInit;
      var x := 0;
      while x < |s.varDefs|
        invariant x <= |s.varDefs|
        invariant forall k :: 0 <= k < x ==> s.varDefs[k].Var?
        invariant u == r.value.unInit + set k | 0 <= k < x :: s.varDefs[k].Pair()
      {
        if !s.varDefs[x].Var? {
          return Failure("ClassCastException");
        }
        u := u + {s.varDefs[x].Pair()};
        x := x + 1;
      }
      r := Success(Walk(u, r.value.nonFinal));
    }
    if s.kind.Do? {
      if s.kind.init.Some? {
        r := SetNonFinalExprent(s.kind.init.value, r.value);
        if r.Failure? {
          return;
        }
      }
      if s.kind.inc.Some? {
        r := SetNonFinalExprent(s.kind.inc.value, r.value);
        if r.Failure? {
          return;
        }
      }
    } else if HasBothBranches(s) {
      r := SetNonFinal(s.stats[0], r.value);
      if r.Failure? {
        return;
      }
      var afterHead := r.value.unInit;
      r := SetNonFinal(s.stats[1], r.value);
      if r.Failure? {
        return;
      }
      r := SetNonFinal(s.stats[2], Walk(afterHead, r.value.nonFinal));
      return;
    }
    var j := 0;
    while j < |s.stats|
      invariant j <= |s.stats| && r.Success?
      invariant FinalStats(s, j, r.value) == FinalStat(s, w)
    {
      r := SetNonFinal(s.stats[j], r.value);
      if r.Failure? {
        return;
      }
      j := j + 1;
    }
  }

  /** The expressions `setNonFinal` walks in a statement and below it. */
  ghost predicate WalkedReassigns(s: Statement, p: VarVersionPair)
  {
    (s.exprents.Some? && exists k :: 0 <= k < |s.exprents.value| && Reassigns(s.exprents.value[k], p)) ||
    (s.kind.Do? && s.kind.init.Some? && Reassigns(s.kind.init.value, p)) ||
    (s.kind.Do? && s.kind.inc.Some? && Reassigns(s.kind.inc.value, p)) ||
    exists k :: 0 <= k < |s.stats| && WalkedReassigns(s.stats[k], p)
  }

  lemma {:induction false} FinalListMarks(exps: seq<Exprent>, k: nat, w: Walk)
    requires k <= |exps| && FinalList(exps, k, w).Success?
    ensures var r := FinalList(exps, k, w).value;
      w.nonFinal <= r.nonFinal &&
      forall p :: p in r.nonFinal && p !in w.nonFinal ==> exists i :: k <= i < |exps| && Reassigns(exps[i], p)
    decreases |exps| - k
  {
    if k < |exps| {
      if exps[k].Var? {
        FinalListMarks(exps, k + 1, Walk(w.unInit + {exps[k].Pair()}, w.nonFinal));
      } else {
        var w1 := FinalExprent(exps[k], w).value;
        assert FinalList(exps, k, w) == FinalList(exps, k + 1, w1);
        FinalExprentMarks(exps[k], w);
        FinalListMarks(exps, k + 1, w1);
        forall p | p in FinalList(exps, k, w).value.nonFinal && p !in w.nonFinal
          ensures exists i :: k <= i < |exps| && Reassigns(exps[i], p)
        {
          if p in w1.nonFinal {
            assert Reassigns(exps[k], p);
          }
        }
      }
    }
  }

  /** Every version the pass marks not final is written, not as a declaration, in one of the
    * expressions it walks; and no mark is ever taken back. */
  lemma {:induction false} FinalStatMarks(s: Statement, w: Walk)
    requires FinalStat(s, w).Success?
    ensures var r := FinalStat(s, w).value;
      w.nonFinal <= r.nonFinal &&
      forall p :: p in r.nonFinal && p !in w.nonFinal ==> WalkedReassigns(s, p)
    decreases s, 1
  {
    var w1 := if s.exprents.Some? then FinalList(s.exprents.value, 0, w) else Success(w);
    if s.exprents.Some? {
      FinalListMarks(s.exprents.value, 0, w);
    }
    var w2 :=
      if |s.varDefs| > 0 && !s.kind.Do? then
        (match DefPairs(s.varDefs)
         case Failure(err) => Failure(err)
         case Success(ps) => Success(Walk(w1.value.unInit + ps, w1.value.nonFinal)))
      else Success(w1.value);
    assert w2.Success? && w2.value.nonFinal == w1.value.nonFinal;
    var r := FinalStat(s, w).value;
    forall p | p in w1.value.nonFinal && p !in w.nonFinal
      ensures WalkedReassigns(s, p)
    {
      var k :| 0 <= k < |s.exprents.value| && Reassigns(s.exprents.value[k], p);
    }
    if s.kind.Do? {
      var w3 := FinalOption(s.kind.init, w2.value).value;
      if s.kind.init.Some? {
        FinalExprentMarks(s.kind.init.value, w2.value);
      }
      var w4 := FinalOption(s.kind.inc, w3).value;
      if s.kind.inc.Some? {
        FinalExprentMarks(s.kind.inc.value, w3);
      }
      FinalStatsMarks(s, 0, w4);
      forall p | p in r.nonFinal && p !in w4.nonFinal
        ensures WalkedReassigns(s, p)
      {
        var k :| 0 <= k < |s.stats| && WalkedReassigns(s.stats[k], p);
      }
    } else if HasBothBranches(s) {
      var w3 := FinalStat(s.stats[0], w2.value).value;
      FinalStatMarks(s.stats[0], w2.value);
      var w4 := FinalStat(s.stats[1], w3).value;
      FinalStatMarks(s.stats[1], w3);
      FinalStatMarks(s.stats[2], Walk(w3.unInit, w4.nonFinal));
      forall p | p in r.nonFinal && p !in w.nonFinal
        ensures WalkedReassigns(s, p)
      {
        if p in w2.value.nonFinal {
        } else if p in w3.nonFinal {
          assert WalkedReassigns(s.stats[0], p);
        } else if p in w4.nonFinal {
          assert WalkedReassigns(s.stats[1], p);
        } else {
          assert WalkedReassigns(s.stats[2], p);
        }
      }
    } else {
      FinalStatsMarks(s, 0, w2.value);
      forall p | p in r.nonFinal && p !in w2.value.nonFinal
        ensures WalkedReassigns(s, p)
      {
        var k :| 0 <= k < |s.stats| && WalkedReassigns(s.stats[k], p);
      }
    }
  }

  lemma {:induction false} FinalStatsMarks(s: Statement, j: nat, w: Walk)
    requires j <= |s.stats| && FinalStats(s, j, w).Success?
    ensures var r := FinalStats(s, j, w).value;
      w.nonFinal <= r.nonFinal &&
      forall p :: p in r.nonFinal && p !in w.nonFinal ==> exists k :: j <= k < |s.stats| && WalkedReassigns(s.stats[k], p)
    decreases s, 0, |s.stats| - j
  {
    if j < |s.stats| {
      var w1 := FinalStat(s.stats[j], w).value;
      assert FinalStats(s, j, w) == FinalStats(s, j + 1, w1);
      FinalStatMarks(s.stats[j], w);
      FinalStatsMarks(s, j + 1, w1);
      forall p | p in FinalStats(s, j, w).value.nonFinal && p !in w.nonFinal
        ensures exists k :: j <= k < |s.stats| && WalkedReassigns(s.stats[k], p)
      {
        if p in w1.nonFinal {
          assert WalkedReassigns(s.stats[j], p);
        }
      }
    }
  }
}
