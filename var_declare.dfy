/**
 * The body of `setVarDefinitions` for one slot: where the declaration of the slot goes, and
 * the edit of the tree that puts it there.
 */
module VarDeclare {
  import opened Wrappers
  import opened Exprents
  import opened Statements
  import opened VarInit
  import opened VarFirstBlock
  import opened VarInitPass

  // ---------------------------------------------------------------------------------------
  // Editing the tree at a path

  /** The tree with the statement at `path` replaced by `t`. */
  function UpdateAt(root: Statement, path: seq<nat>, t: Statement): Statement
    requires ValidPath(root, path)
  {
    if |path| == 0 then t
    else root.(stats := root.stats[path[0] := UpdateAt(root.stats[path[0]], path[1..], t)])
  }

  /** Two trees with the same statements (by id) in the same places. */
  predicate SameShape(a: Statement, b: Statement)
  {
    a.id == b.id && |a.stats| == |b.stats| &&
    forall k :: 0 <= k < |a.stats| ==> SameShape(a.stats[k], b.stats[k])
  }

  lemma {:induction false} SameShapeRefl(a: Statement)
    ensures SameShape(a, a)
  {
    forall k | 0 <= k < |a.stats|
      ensures SameShape(a.stats[k], a.stats[k])
    {
      SameShapeRefl(a.stats[k]);
    }
  }

  /** Replacing a statement by one of the same shape keeps the shape of the tree, and puts
    * the new statement at the path. */
  lemma {:induction false} UpdateAtShape(root: Statement, path: seq<nat>, t: Statement)
    requires ValidPath(root, path) && SameShape(At(root, path), t)
    ensures SameShape(root, UpdateAt(root, path, t))
    ensures ValidPath(UpdateAt(root, path, t), path) && At(UpdateAt(root, path, t), path) == t
  {
    if |path| > 0 {
      UpdateAtShape(root.stats[path[0]], path[1..], t);
      forall k | 0 <= k < |root.stats| && k != path[0]
        ensures SameShape(root.stats[k], root.stats[k])
      {
        SameShapeRefl(root.stats[k]);
      }
    }
  }

  /** A path of one tree leads to a statement of the same shape in a tree of the same
    * shape. */
  lemma {:induction false} SameShapePath(a: Statement, b: Statement, path: seq<nat>)
    requires SameShape(a, b) && ValidPath(a, path)
    ensures ValidPath(b, path) && SameShape(At(a, path), At(b, path))
  {
    if |path| > 0 {
      SameShapePath(a.stats[path[0]], b.stats[path[0]], path[1..]);
    }
  }

  lemma {:induction false} AtConcat(root: Statement, a: seq<nat>, b: seq<nat>)
    requires ValidPath(root, a) && ValidPath(At(root, a), b)
    ensures ValidPath(root, a + b) && At(root, a + b) == At(At(root, a), b)
  {
    if |a| > 0 {
      assert (a + b)[1..] == a[1..] + b;
      AtConcat(root.stats[a[0]], a[1..], b);
    } else {
      assert a + b == b;
    }
  }

  lemma {:induction false} PrefixValid(root: Statement, path: seq<nat>)
    requires ValidPath(root, path) && |path| > 0
    ensures ValidPath(root, path[..|path| - 1])
  {
    if |path| > 1 {
      assert path[..|path| - 1][1..] == path[1..][..|path[1..]| - 1];
      PrefixValid(root.stats[path[0]], path[1..]);
    }
  }

  // ---------------------------------------------------------------------------------------
  // One list

  /** `setDefinition(expr, index)`: an assignment to a variable of slot `index` becomes its
    * declaration; `None` for any other expression. */
  function SetDefinition(e: Exprent, index: int): Option<Exprent>
  {
    if e.Assignment? && e.left.Var? && e.left.index == index then
      Some(e.(left := e.left.(definition := true)))
    else None
  }

  /** A variable of slot `index` among the expression's descendants (not the expression
    * itself). */
  predicate MentionsBelow(e: Exprent, index: int)
  {
    exists k :: 0 <= k < |Desc(e)| && Desc(e)[k].Var? && Desc(e)[k].index == index
  }

  /** Where the search for the first assignment stops: at an assignment to the slot, at an
    * expression with the slot below it, or at the end. */
  function FirstUse(lst: seq<Exprent>, index: int, k: nat): (r: nat)
    requires k <= |lst|
    ensures k <= r <= |lst|
    decreases |lst| - k
  {
    if k == |lst| || SetDefinition(lst[k], index).Some? || MentionsBelow(lst[k], index) then k
    else FirstUse(lst, index, k + 1)
  }

  /** The list after the slot is declared in it: the first assignment turned into the
    * declaration, or the new declaration `v` put where the search stopped. */
  function Declare(lst: seq<Exprent>, index: int, v: Exprent): seq<Exprent>
  {
    var k := FirstUse(lst, index, 0);
    if k < |lst| && SetDefinition(lst[k], index).Some? then lst[k := SetDefinition(lst[k], index).value]
    else lst[..k] + [v] + lst[k..]
  }

  /** The expression declares a variable of the slot. */
  predicate Declares(e: Exprent, index: int)
  {
    (e.Var? && e.index == index && e.definition) ||
    (e.Assignment? && e.left.Var? && e.left.index == index && e.left.definition)
  }

  /** The expression assigns the slot or has it below it. */
  predicate Uses(e: Exprent, index: int)
  {
    SetDefinition(e, index).Some? || MentionsBelow(e, index)
  }

  lemma {:induction false} FirstUseMeans(lst: seq<Exprent>, index: int, k: nat)
    requires k <= |lst|
    ensures forall i :: k <= i < FirstUse(lst, index, k) ==> !Uses(lst[i], index)
    ensures FirstUse(lst, index, k) < |lst| ==> Uses(lst[FirstUse(lst, index, k)], index)
    decreases |lst| - k
  {
    if k < |lst| && !Uses(lst[k], index) {
      FirstUseMeans(lst, index, k + 1);
    }
  }

  /** After the slot is declared in a list, the declaration comes before every other use of
    * the slot in it, and the other expressions are kept in their order. */
  lemma DeclareMeans(lst: seq<Exprent>, index: int, t: VarType)
    ensures var r := Declare(lst, index, Var(index, 0, true, t));
      exists k :: 0 <= k < |r| && Declares(r[k], index) &&
        (forall i :: 0 <= i < k ==> !Uses(r[i], index)) &&
        r[..k] == lst[..k] &&
        ((|r| == |lst| && r[k + 1..] == lst[k + 1..]) || (|r| == |lst| + 1 && r[k + 1..] == lst[k..]))
  {
    var v := Var(index, 0, true, t);
    var r := Declare(lst, index, v);
    var k := FirstUse(lst, index, 0);
    FirstUseMeans(lst, index, 0);
    if k < |lst| && SetDefinition(lst[k], index).Some? {
      assert r[..k] == lst[..k] && r[k + 1..] == lst[k + 1..];
    } else {
      assert r[..k] == lst[..k] && r[k] == v && r[k + 1..] == lst[k..];
    }
    assert forall i :: 0 <= i < k ==> r[i] == lst[i];
  }

  /** The loop of `setVarDefinitions` over the chosen list. */
  method DeclareIn(lst: seq<Exprent>, index: int, v: Exprent) returns (r: seq<Exprent>)
    ensures r == Declare(lst, index, v)
  {
    var addindex := 0;
    while addindex < |lst|
      invariant addindex <= |lst|
      invariant FirstUse(lst, index, addindex) == FirstUse(lst, index, 0)
    {
      var expr := lst[addindex];
      var d := SetDefinition(expr, index);
      if d.Some? {
        return lst[addindex := d.value];
      }
      var sub := GetAllExprents(expr, true);
      var foundvar := false;
      var x := 0;
      while x < |sub|
        invariant x <= |sub|
        invariant !foundvar <==> forall i :: 0 <= i < x ==> !(sub[i].Var? && sub[i].index == index)
      {
        if sub[x].Var? && sub[x].index == index {
          foundvar := true;
          break;
        }
        x := x + 1;
      }
      if foundvar {
        break;
      }
      addindex := addindex + 1;
    }
    r := lst[..addindex] + [v] + lst[addindex..];
  }

  // ---------------------------------------------------------------------------------------
  // One slot

  /** A `for` loop whose init assigns the slot. */
  predicate ForInitDefines(s: Statement, index: int)
  {
    s.kind.Do? && s.kind.loopType == LoopFor && s.kind.init.Some? &&
    SetDefinition(s.kind.init.value, index).Some?
  }

  /** A `for-each` loop whose init is a variable of the slot. */
  predicate ForEachInitIs(s: Statement, index: int)
  {
    s.kind.Do? && s.kind.loopType == LoopForEach && s.kind.init.Some? &&
    s.kind.init.value.Var? && s.kind.init.value.index == index
  }

  /** The list a declaration goes into, and where it lives: the statement's definitions when
    * the search found nothing, the found statement's definitions when it has no
    * expressions, its expressions otherwise. */
  function Target(root: Statement, spath: seq<nat>, first: Option<seq<nat>>): (r: (seq<nat>, seq<Exprent>))
    requires ValidPath(root, spath)
    requires first.Some? ==> ValidPath(root, spath + first.value)
    ensures ValidPath(root, r.0)
  {
    if first.None? then (spath, At(root, spath).varDefs)
    else
      var f := At(root, spath + first.value);
      (spath + first.value, if f.exprents.None? then f.varDefs else f.exprents.value)
  }

  /** The statement at `tpath` with its target list replaced. */
  function WithList(s: Statement, fromSearch: bool, lst: seq<Exprent>): Statement
  {
    if fromSearch && s.exprents.Some? then s.(exprents := Some(lst)) else s.(varDefs := lst)
  }

  /**
   * One entry of `setVarDefinitions`: the slot `index` whose defining statement is at
   * `path`.  Implicitly defined slots are skipped.  A `for` loop whose init assigns the slot
   * declares it there; a `for` loop whose condition or increment uses the slot hands the
   * search to its parent (a missing condition or increment, or a loop at the root, throws);
   * a `for-each` loop over a variable of the slot declares that variable.  Otherwise the
   * declaration goes into the list chosen by `findFirstBlock`: its first assignment to the
   * slot is marked, or a new variable of type `varType` is inserted where the search for it
   * stopped.
   */
  function DefineSlot(root: Statement, statVars: map<int, set<int>>, implDefVars: set<int>,
                      varType: VarType, index: int, path: seq<nat>): Result<Statement>
    requires ValidPath(root, path)
  {
    var stat := At(root, path);
    if index in implDefVars then Success(root)
    else if ForInitDefines(stat, index) then
      Success(UpdateAt(root, path, stat.(kind := stat.kind.(init := SetDefinition(stat.kind.init.value, index)))))
    else if stat.kind.Do? && stat.kind.loopType == LoopFor && VarSlots([stat.kind.cond, stat.kind.inc]).None? then
      Failure("NullPointerException")
    else
      var up := stat.kind.Do? && stat.kind.loopType == LoopFor && index in VarSlots([stat.kind.cond, stat.kind.inc]).value;
      if up && |path| == 0 then Failure("NullPointerException")
      else if ForEachInitIs(stat, index) then
        Success(UpdateAt(root, path, stat.(kind := stat.kind.(init := Some(stat.kind.init.value.(definition := true))))))
      else
        var spath := if up then path[..|path| - 1] else path;
        assert ValidPath(root, spath) by {
          if up {
            PrefixValid(root, path);
          }
        }
        Placement(root, statVars, varType, index, spath)
  }

  /** The declaration put into the list `findFirstBlock` chooses, searching from `spath`. */
  function Placement(root: Statement, statVars: map<int, set<int>>, varType: VarType,
                     index: int, spath: seq<nat>): Result<Statement>
    requires ValidPath(root, spath)
  {
    match FirstBlock(statVars, index, [([], At(root, spath))])
    case Failure(err) => Failure(err)
    case Success(first) =>
      if first.Some? then
        FirstBlockStops(statVars, index, At(root, spath), [([], At(root, spath))]);
        AtConcat(root, spath, first.value);
        var (tpath, lst) := Target(root, spath, first);
        Success(UpdateAt(root, tpath, WithList(At(root, tpath), true, Declare(lst, index, Var(index, 0, true, varType)))))
      else
        var (tpath, lst) := Target(root, spath, first);
        Success(UpdateAt(root, tpath, WithList(At(root, tpath), false, Declare(lst, index, Var(index, 0, true, varType)))))
  }

  /** The loop body of `setVarDefinitions` for one slot. */
  method DefineVar(root: Statement, statVars: map<int, set<int>>, implDefVars: set<int>,
                   varType: VarType, index: int, path: seq<nat>) returns (r: Result<Statement>)
    requires ValidPath(root, path)
    ensures r == DefineSlot(root, statVars, implDefVars, varType, index, path)
  {
    if index in implDefVars {
      return Success(root);
    }
    var stat := At(root, path);
    var spath := path;
    if stat.kind.Do? {
      if stat.kind.loopType == LoopFor {
        if stat.kind.init.Some? && SetDefinition(stat.kind.init.value, index).Some? {
          var marked := stat.(kind := stat.kind.(init := SetDefinition(stat.kind.init.value, index)));
          return Success(UpdateAt(root, path, marked));
        }
        var special := GetAllVars([stat.kind.cond, stat.kind.inc]);
        if special.None? {
          return Failure("NullPointerException");
        }
        var x := 0;
        while x < |special.value|
          invariant x <= |special.value|
          invariant spath == path
          invariant forall i :: 0 <= i < x ==> special.value[i].index != index
        {
          if special.value[x].index == index {
            if |path| == 0 {
              return Failure("NullPointerException");
            }
            PrefixValid(root, path);
            spath := path[..|path| - 1];
            break;
          }
          x := x + 1;
        }
        assert spath == path ==> index !in IndicesOf(special.value);
        assert spath != path ==> index in IndicesOf(special.value);
      } else if stat.kind.loopType == LoopForEach {
        if stat.kind.init.Some? && stat.kind.init.value.Var? && stat.kind.init.value.index == index {
          var marked := stat.(kind := stat.kind.(init := Some(stat.kind.init.value.(definition := true))));
          return Success(UpdateAt(root, path, marked));
        }
      }
    }
    r := PlaceDeclaration(root, statVars, varType, index, spath);
  }

  /** `findFirstBlock` from `spath`, the choice of the list, and the loop over it. */
  method PlaceDeclaration(root: Statement, statVars: map<int, set<int>>, varType: VarType,
                          index: int, spath: seq<nat>) returns (r: Result<Statement>)
    requires ValidPath(root, spath)
    ensures r == Placement(root, statVars, varType, index, spath)
  {
    var first := FindFirstBlock(statVars, At(root, spath), index);
    if first.Failure? {
      return Failure(first.error);
    }
    var tpath := spath;
    var fromSearch := false;
    if first.value.Some? {
      FirstBlockStops(statVars, index, At(root, spath), [([], At(root, spath))]);
      AtConcat(root, spath, first.value.value);
      tpath := spath + first.value.value;
      fromSearch := true;
    }
    var target := At(root, tpath);
    var lst := if fromSearch && target.exprents.Some? then target.exprents.value else target.varDefs;
    var declared := DeclareIn(lst, index, Var(index, 0, true, varType));
    r := Success(UpdateAt(root, tpath, WithList(target, fromSearch, declared)));
  }

  /** A statement edited in place: same id, same children. */
  lemma EditedInPlace(s: Statement, t: Statement)
    requires t.id == s.id && t.stats == s.stats
    ensures SameShape(s, t)
  {
    forall k | 0 <= k < |s.stats|
      ensures SameShape(s.stats[k], t.stats[k])
    {
      SameShapeRefl(s.stats[k]);
    }
  }

  /** The statement holds a declaration of the slot: among its definitions, its expressions,
    * or as a loop's init. */
  predicate HasDeclaration(s: Statement, index: int)
  {
    (exists k :: 0 <= k < |s.varDefs| && Declares(s.varDefs[k], index)) ||
    (s.exprents.Some? && exists k :: 0 <= k < |s.exprents.value| && Declares(s.exprents.value[k], index)) ||
    (s.kind.Do? && s.kind.init.Some? && Declares(s.kind.init.value, index))
  }

  /** Declaring a slot edits one statement in place: the tree keeps its shape, so every
    * recorded path stays valid; and unless the slot is implicitly defined, some statement of
    * the new tree declares it. */
  lemma DefineSlotMeans(root: Statement, statVars: map<int, set<int>>, implDefVars: set<int>,
                        varType: VarType, index: int, path: seq<nat>)
    requires ValidPath(root, path)
    requires DefineSlot(root, statVars, implDefVars, varType, index, path).Success?
    ensures var t := DefineSlot(root, statVars, implDefVars, varType, index, path).value;
            SameShape(root, t) &&
            (index !in implDefVars ==> exists p :: ValidPath(t, p) && HasDeclaration(At(t, p), index))
  {
    var t := DefineSlot(root, statVars, implDefVars, varType, index, path).value;
    var stat := At(root, path);
    if index in implDefVars {
      SameShapeRefl(root);
    } else if ForInitDefines(stat, index) {
      var marked := stat.(kind := stat.kind.(init := SetDefinition(stat.kind.init.value, index)));
      EditedInPlace(stat, marked);
      UpdateAtShape(root, path, marked);
      assert HasDeclaration(At(t, path), index);
    } else {
      var up := stat.kind.Do? && stat.kind.loopType == LoopFor && index in VarSlots([stat.kind.cond, stat.kind.inc]).value;
      if ForEachInitIs(stat, index) {
        var marked := stat.(kind := stat.kind.(init := Some(stat.kind.init.value.(definition := true))));
        EditedInPlace(stat, marked);
        UpdateAtShape(root, path, marked);
        assert HasDeclaration(At(t, path), index);
      } else {
        var spath := if up then path[..|path| - 1] else path;
        if up {
          PrefixValid(root, path);
        }
        PlacementMeans(root, statVars, varType, index, spath);
      }
    }
  }

  lemma PlacementMeans(root: Statement, statVars: map<int, set<int>>, varType: VarType,
                       index: int, spath: seq<nat>)
    requires ValidPath(root, spath)
    requires Placement(root, statVars, varType, index, spath).Success?
    ensures var t := Placement(root, statVars, varType, index, spath).value;
            SameShape(root, t) && exists p :: ValidPath(t, p) && HasDeclaration(At(t, p), index)
  {
    var t := Placement(root, statVars, varType, index, spath).value;
    var first := FirstBlock(statVars, index, [([], At(root, spath))]).value;
    if first.Some? {
      FirstBlockStops(statVars, index, At(root, spath), [([], At(root, spath))]);
      AtConcat(root, spath, first.value);
    }
    var (tpath, lst) := Target(root, spath, first);
    var target := At(root, tpath);
    var declared := Declare(lst, index, Var(index, 0, true, varType));
    var edited := WithList(target, first.Some?, declared);
    EditedInPlace(target, edited);
    UpdateAtShape(root, tpath, edited);
    DeclareMeans(lst, index, varType);
    var k :| 0 <= k < |declared| && Declares(declared[k], index);
    assert HasDeclaration(At(t, tpath), index);
  }

  // ---------------------------------------------------------------------------------------
  // Declarations survive the declaration of other slots

  /** Replacing one statement by an edit of it in place leaves every other statement's own
    * lists as they were. */
  lemma {:induction false} UpdateAtOthers(root: Statement, path: seq<nat>, t: Statement, p: seq<nat>)
    requires ValidPath(root, path) && t.stats == At(root, path).stats
    requires ValidPath(root, p) && p != path
    ensures ValidPath(UpdateAt(root, path, t), p)
    ensures var u := At(UpdateAt(root, path, t), p);
            u.kind == At(root, p).kind && u.exprents == At(root, p).exprents && u.varDefs == At(root, p).varDefs
  {
    if |path| > 0 && |p| > 0 {
      if p[0] == path[0] {
        assert p == [p[0]] + p[1..] && path == [path[0]] + path[1..];
        UpdateAtOthers(root.stats[path[0]], path[1..], t, p[1..]);
      }
    }
  }

  /** A list that declares a slot still declares it after another slot is declared in it. */
  lemma DeclareKeeps(lst: seq<Exprent>, index2: int, v: Exprent, index: int)
    requires index != index2
    requires exists k :: 0 <= k < |lst| && Declares(lst[k], index)
    ensures var r := Declare(lst, index2, v);
            exists k :: 0 <= k < |r| && Declares(r[k], index)
  {
    var k :| 0 <= k < |lst| && Declares(lst[k], index);
    var r := Declare(lst, index2, v);
    var f := FirstUse(lst, index2, 0);
    if f < |lst| && SetDefinition(lst[f], index2).Some? {
      assert k != f ==> r[k] == lst[k];
      assert Declares(r[k], index);
    } else if k < f {
      assert r[k] == lst[k];
    } else {
      assert r[k + 1] == lst[k];
    }
  }

  /** Declaring `index2` keeps every declaration of another slot where it was. */
  lemma DefineSlotKeeps(root: Statement, statVars: map<int, set<int>>, implDefVars: set<int>,
                        varType: VarType, index2: int, path: seq<nat>, index: int, p: seq<nat>)
    requires ValidPath(root, path) && index != index2
    requires DefineSlot(root, statVars, implDefVars, varType, index2, path).Success?
    requires ValidPath(root, p) && HasDeclaration(At(root, p), index)
    ensures var t := DefineSlot(root, statVars, implDefVars, varType, index2, path).value;
            ValidPath(t, p) && HasDeclaration(At(t, p), index)
  {
    var stat := At(root, path);
    if index2 in implDefVars {
    } else if ForInitDefines(stat, index2) {
      var marked := stat.(kind := stat.kind.(init := SetDefinition(stat.kind.init.value, index2)));
      EditKeeps(root, path, marked, index, p);
    } else {
      var up := stat.kind.Do? && stat.kind.loopType == LoopFor && index2 in VarSlots([stat.kind.cond, stat.kind.inc]).value;
      if ForEachInitIs(stat, index2) {
        var marked := stat.(kind := stat.kind.(init := Some(stat.kind.init.value.(definition := true))));
        EditKeeps(root, path, marked, index, p);
      } else {
        var spath := if up then path[..|path| - 1] else path;
        if up {
          PrefixValid(root, path);
        }
        PlacementKeeps(root, statVars, varType, index2, spath, index, p);
      }
    }
  }

  /** An edit in place that keeps the statement's declarations of `index` keeps every
    * declaration of `index` in the tree. */
  lemma EditKeeps(root: Statement, path: seq<nat>, t: Statement, index: int, p: seq<nat>)
    requires ValidPath(root, path) && t.stats == At(root, path).stats && t.id == At(root, path).id
    requires HasDeclaration(At(root, path), index) ==> HasDeclaration(t, index)
    requires ValidPath(root, p) && HasDeclaration(At(root, p), index)
    ensures ValidPath(UpdateAt(root, path, t), p) && HasDeclaration(At(UpdateAt(root, path, t), p), index)
  {
    if p == path {
      EditedInPlace(At(root, path), t);
      UpdateAtShape(root, path, t);
    } else {
      UpdateAtOthers(root, path, t, p);
    }
  }

  lemma PlacementKeeps(root: Statement, statVars: map<int, set<int>>, varType: VarType,
                       index2: int, spath: seq<nat>, index: int, p: seq<nat>)
    requires ValidPath(root, spath) && index != index2
    requires Placement(root, statVars, varType, index2, spath).Success?
    requires ValidPath(root, p) && HasDeclaration(At(root, p), index)
    ensures var t := Placement(root, statVars, varType, index2, spath).value;
            ValidPath(t, p) && HasDeclaration(At(t, p), index)
  {
    var first := FirstBlock(statVars, index2, [([], At(root, spath))]).value;
    if first.Some? {
      FirstBlockStops(statVars, index2, At(root, spath), [([], At(root, spath))]);
      AtConcat(root, spath, first.value);
    }
    var (tpath, lst) := Target(root, spath, first);
    var target := At(root, tpath);
    var v := Var(index2, 0, true, varType);
    var edited := WithList(target, first.Some?, Declare(lst, index2, v));
    if HasDeclaration(target, index) {
      if first.Some? && target.exprents.Some? {
        if exists k :: 0 <= k < |target.exprents.value| && Declares(target.exprents.value[k], index) {
          DeclareKeeps(lst, index2, v, index);
        }
      } else {
        if exists k :: 0 <= k < |target.varDefs| && Declares(target.varDefs[k], index) {
          DeclareKeeps(lst, index2, v, index);
        }
      }
    }
    EditKeeps(root, tpath, edited, index, p);
  }
}
