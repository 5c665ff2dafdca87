/**
 * `VarDefinitionHelper`: decides where each local variable of a method is declared.  The
 * constructor merges variable versions, collects the implicitly defined slots (parameters
 * and caught exceptions) and finds, for every slot, the statement that covers all its uses
 * (`initStatement`); `setVarDefinitions` then declares each slot there, merges versions
 * again and marks reassigned variables not final.
 *
 * The helper keeps the defining statement of each slot as its path from the root; every
 * edit of the tree keeps its shape, so the paths stay valid.  The variable processor is
 * represented by what the helper reads from it (original slot indices, the type bounds, the
 * variable types) and by the set of versions it marks not final.
 */
module VarDefinition {
  import opened Wrappers
  import opened Exprents
  import opened Statements
  import opened StructClasses
  import opened StructContexts
  import opened VarTypes
  import opened VarMerge
  import opened VarRemap
  import opened VarInit
  import opened VarInitPass
  import opened VarDeclare
  import opened VarFinal

  /** The scope the method's parameters open: each parameter slot at version 0. */
  function ParamScope(isStatic: bool, sizes: seq<nat>): Scope
  {
    map k | k in Slots(isStatic, sizes) :: VarVersionPair(k, 0)
  }

  /** The parameter slots as a set. */
  function ParamSlotSet(isStatic: bool, sizes: seq<nat>): set<int>
  {
    set k | k in Slots(isStatic, sizes)
  }

  /** Every slot of `order` that is not implicitly defined is declared somewhere in `root`. */
  ghost predicate AllDeclared(root: Statement, implDefVars: set<int>, order: seq<int>, n: nat)
    requires n <= |order|
  {
    forall j :: 0 <= j < n && order[j] !in implDefVars ==>
      exists p :: ValidPath(root, p) && HasDeclaration(At(root, p), order[j])
  }

  class VarDefinitionHelper {
    /** The method body, edited in place. */
    var root: Statement
    /** The defining statement of each slot, by its path from the root. */
    var mapVarDefStatements: map<int, seq<nat>>
    /** The slots used under each statement, by statement id. */
    var mapStatementVars: map<int, set<int>>
    /** The slots defined by the parameters and by catch clauses. */
    var implDefVars: set<int>
    /** The minimum and maximum types of the type processor. */
    var bounds: Bounds
    /** The versions the variable processor has marked not final. */
    var nonFinal: set<VarVersionPair>

    /** Whether the method is static (it then has no `this` in slot 0). */
    const isStatic: bool
    /** The stack sizes of the parameters of the method's descriptor. */
    const paramSizes: seq<nat>
    /** `VarProcessor.getVarOriginalIndex`. */
    const orig: int -> int
    /** The classes known to the structure context. */
    const classes: map<string, StructClass>
    ghost const rank: map<string, nat>
    /** `VarType.getCommonSupertype`. */
    const common: (VarType, VarType) -> Option<VarType>
    /** `VarProcessor.getVarType`. */
    const varTypes: VarVersionPair -> VarType

    ghost predicate Valid()
      reads this
    {
      Ranked(classes, rank) &&
      forall k :: k in mapVarDefStatements ==> ValidPath(root, mapVarDefStatements[k])
    }

    /** The fields of the helper; the work of the source's constructor is `Init`. */
    constructor (root: Statement, isStatic: bool, paramSizes: seq<nat>, orig: int -> int,
                 classes: map<string, StructClass>, ghost rank: map<string, nat>,
                 common: (VarType, VarType) -> Option<VarType>, bounds: Bounds,
                 varTypes: VarVersionPair -> VarType)
      requires Ranked(classes, rank)
      ensures Valid()
      ensures this.root == root && this.isStatic == isStatic && this.paramSizes == paramSizes
      ensures this.orig == orig && this.classes == classes && this.rank == rank
      ensures this.common == common && this.bounds == bounds && this.varTypes == varTypes
      ensures mapVarDefStatements == map[] && mapStatementVars == map[] && implDefVars == {} && nonFinal == {}
    {
      this.root := root;
      this.isStatic := isStatic;
      this.paramSizes := paramSizes;
      this.orig := orig;
      this.classes := classes;
      this.rank := rank;
      this.common := common;
      this.bounds := bounds;
      this.varTypes := varTypes;
      mapVarDefStatements := map[];
      mapStatementVars := map[];
      implDefVars := {};
      nonFinal := {};
    }

    /**
     * `mergeVars(root)`: with the parameters' scope as parent and the type bounds
     * populated, search for a clash; remap it (with the merged type of the pair) and, when
     * nothing was remapped, blacklist the pair; repeat until there is no clash.  `fuel`
     * bounds the number of rounds.
     */
    method MergeVarsRoot(fuel: nat) returns (r: Outcome, blacklist: Blacklist)
      requires Valid()
      modifies this
      ensures Valid()
      ensures mapVarDefStatements == old(mapVarDefStatements) && mapStatementVars == old(mapStatementVars)
      ensures implDefVars == old(implDefVars) && nonFinal == old(nonFinal)
      ensures bounds.minTypes == old(bounds.minTypes)
      ensures bounds.maxTypes == TightenStats(classes, rank, old(bounds.maxTypes), [old(root)])
      ensures (r, root, blacklist) ==
        MergeRounds(orig, classes, rank, common, bounds, ParamScope(isStatic, paramSizes), old(root), map[], fuel)
      ensures SameShape(old(root), root)
      ensures r.Pass? ==> MergeStat(Ctx(orig, blacklist), root, ParamScope(isStatic, paramSizes)).Clean?
      ensures r.Fail? ==> r.error == "IllegalArgumentException" || r.error == "OutOfFuel"
    {
      var parent := ParentScope(isStatic, paramSizes);
      ghost var scope := ParamScope(isStatic, paramSizes);
      assert forall k :: k in parent <==> k in scope;
      assert forall k :: k in parent ==> parent[k] == scope[k];
      assert parent == scope;
      ghost var root0 := root;
      bounds := PopulateTypeBounds(classes, rank, root, bounds);
      r, root, blacklist := MergeLoop(orig, classes, rank, common, bounds, parent, root, fuel);
      MergeRoundsMeans(orig, classes, rank, common, bounds, parent, root0, map[], fuel);
      ShapeKeepsPaths(root0, root, mapVarDefStatements);
    }

    /**
     * The source's constructor after the fields: the parameter slots are implicitly
     * defined; versions are merged; every catch variable and resource variable is
     * implicitly defined and marked a definition; then `initStatement(root)` records the
     * defining statement of each slot.
     */
    method Init(fuel: nat) returns (r: Outcome, ghost merged: Statement)
      requires Valid()
      modifies this
      ensures Valid()
      ensures r.Pass? ==> (TreeCatchSlots(merged).Some? && root == MarkCatchVars(merged) &&
                           implDefVars == ParamSlotSet(isStatic, paramSizes) + TreeCatchSlots(merged).value)
      ensures r.Pass? ==> (root.id in mapStatementVars && InitStat(root, [], InitMaps(map[], map[])) ==
                           Some((mapStatementVars[root.id], InitMaps(mapVarDefStatements, mapStatementVars))))
      ensures r.Pass? ==> forall k :: k in mapVarDefStatements ==> DefinesAt(At(root, mapVarDefStatements[k]), k)
    {
      implDefVars := ParamSlotSet(isStatic, paramSizes);
      mapVarDefStatements := map[];
      mapStatementVars := map[];
      var blacklist;
      r, blacklist := MergeVarsRoot(fuel);
      merged := root;
      if r.Fail? {
        return;
      }
      var catchSlots := CatchVarSlots(root);
      if catchSlots.Failure? {
        return Fail(catchSlots.error), merged;
      }
      implDefVars := implDefVars + catchSlots.value;
      root := MarkCatchVars(root);
      var init := InitStatement(root, [], InitMaps(map[], map[]));
      if init.None? {
        return Fail("NullPointerException"), merged;
      }
      mapVarDefStatements := init.value.1.defAt;
      mapStatementVars := init.value.1.statVars;
      InitRootSound(root);
      assert mapStatementVars[root.id] == init.value.0;
    }

    /**
     * The loop of `setVarDefinitions` over the defining statements, in the hash map's
     * iteration order `order`: each slot is declared in turn.  Afterwards every slot that is
     * not implicitly defined has a declaration in the tree.
     */
    method DeclareAll(order: seq<int>) returns (r: Outcome)
      requires Valid()
      requires forall k :: k in mapVarDefStatements <==> k in order
      requires forall i, j :: 0 <= i < j < |order| ==> order[i] != order[j]
      modifies this
      ensures Valid()
      ensures mapVarDefStatements == old(mapVarDefStatements) && mapStatementVars == old(mapStatementVars)
      ensures implDefVars == old(implDefVars) && bounds == old(bounds) && nonFinal == old(nonFinal)
      ensures SameShape(old(root), root)
      ensures r.Pass? ==> AllDeclared(root, implDefVars, order, |order|)
    {
      SameShapeRefl(root);
      var i := 0;
      ghost var root0 := root;
      while i < |order|
        invariant i <= |order| && Valid()
        invariant mapVarDefStatements == old(mapVarDefStatements) && mapStatementVars == old(mapStatementVars)
        invariant implDefVars == old(implDefVars) && bounds == old(bounds) && nonFinal == old(nonFinal)
        invariant SameShape(root0, root)
        invariant AllDeclared(root, implDefVars, order, i)
      {
        var index := order[i];
        var path := mapVarDefStatements[index];
        var res := DefineVar(root, mapStatementVars, implDefVars, varTypes(VarVersionPair(index, 0)), index, path);
        if res.Failure? {
          return Fail(res.error);
        }
        DefineSlotMeans(root, mapStatementVars, implDefVars, varTypes(VarVersionPair(index, 0)), index, path);
        ShapeKeepsPaths(root, res.value, mapVarDefStatements);
        DeclaredKept(root, mapStatementVars, implDefVars, varTypes(VarVersionPair(index, 0)), order, i, path);
        SameShapeTrans(root0, root, res.value);
        root := res.value;
        i := i + 1;
      }
      r := Pass;
    }

    /**
     * `setVarDefinitions()`: every slot is declared, versions are merged again, and the
     * reassigned variables are marked not final.  The walk starts from an empty set of
     * versions awaiting their first assignment.  `declared` is the tree once every slot is
     * declared, `blacklist` the blacklist the second merge ends with.
     */
    method SetVarDefinitions(order: seq<int>, fuel: nat)
      returns (r: Outcome, ghost declared: Statement, ghost blacklist: Blacklist)
      requires Valid()
      requires forall k :: k in mapVarDefStatements <==> k in order
      requires forall i, j :: 0 <= i < j < |order| ==> order[i] != order[j]
      modifies this
      ensures Valid()
      ensures SameShape(old(root), root)
      ensures r.Pass? ==> SameShape(old(root), declared) && AllDeclared(declared, implDefVars, order, |order|)
      ensures r.Pass? ==>
        (Pass, root, blacklist) ==
        MergeRounds(orig, classes, rank, common, bounds, ParamScope(isStatic, paramSizes), declared, map[], fuel)
      ensures r.Pass? ==> MergeStat(Ctx(orig, blacklist), root, ParamScope(isStatic, paramSizes)).Clean?
      ensures r.Pass? ==> FinalStat(root, Walk({}, old(nonFinal))).Success? &&
                          nonFinal == FinalStat(root, Walk({}, old(nonFinal))).value.nonFinal
      ensures r.Pass? ==> (old(nonFinal) <= nonFinal &&
                           forall p :: p in nonFinal && p !in old(nonFinal) ==> WalkedReassigns(root, p))
    {
      ghost var root0 := root;
      blacklist := map[];
      r := DeclareAll(order);
      declared := root;
      if r.Fail? {
        return;
      }
      r, blacklist := MergeVarsRoot(fuel);
      SameShapeTrans(root0, declared, root);
      if r.Fail? {
        return;
      }
      var walk := SetNonFinal(root, Walk({}, nonFinal));
      if walk.Failure? {
        return Fail(walk.error), declared, blacklist;
      }
      FinalStatMarks(root, Walk({}, nonFinal));
      nonFinal := walk.value.nonFinal;
    }
  }

  /** The loop of `mergeVars(root)`: search, remap the clash, blacklist the pair when nothing
    * was renamed, and search again, for at most `fuel` rounds. */
  method MergeLoop(orig: int -> int, classes: map<string, StructClass>, ghost rank: map<string, nat>,
                   common: (VarType, VarType) -> Option<VarType>, b: Bounds, parent: Scope, root: Statement,
                   fuel: nat)
    returns (r: Outcome, tree: Statement, blacklist: Blacklist)
    requires Ranked(classes, rank)
    ensures (r, tree, blacklist) == MergeRounds(orig, classes, rank, common, b, parent, root, map[], fuel)
  {
    blacklist := map[];
    tree := root;
    var remap := MergeVars(Ctx(orig, blacklist), tree, parent);
    var n := fuel;
    while remap.Clash?
      invariant remap == MergeStat(Ctx(orig, blacklist), tree, parent)
      invariant MergeRounds(orig, classes, rank, common, b, parent, tree, blacklist, n) ==
                MergeRounds(orig, classes, rank, common, b, parent, root, map[], fuel)
      decreases n
    {
      if n == 0 {
        return Fail("OutOfFuel"), tree, blacklist;
      }
      n := n - 1;
      tree := remap.tree;
      var merged := MergedPair(classes, rank, common, b, remap.from, remap.to);
      var res := RemapVar(tree, remap.from, remap.to, merged);
      if res.Failure? {
        return Fail(res.error), tree, blacklist;
      }
      tree := res.value.tree;
      if !res.value.success {
        blacklist := blacklist[remap.from := remap.to];
      }
      remap := MergeVars(Ctx(orig, blacklist), tree, parent);
    }
    r := Pass;
  }

  /**
   * The rounds of `mergeVars(root)` from `tree` and `blacklist`, at most `fuel` of them: a
   * clean search ends them; a clash is remapped with the merged type of the pair (none
   * means nothing is renamed) and, when nothing was renamed, the pair is blacklisted.  The
   * answer is the outcome, the tree and the blacklist.
   */
  function MergeRounds(orig: int -> int, classes: map<string, StructClass>, ghost rank: map<string, nat>,
                       common: (VarType, VarType) -> Option<VarType>, b: Bounds, parent: Scope,
                       tree: Statement, blacklist: Blacklist, fuel: nat): (Outcome, Statement, Blacklist)
    requires Ranked(classes, rank)
    decreases fuel
  {
    var m := MergeStat(Ctx(orig, blacklist), tree, parent);
    if m.Clean? then (Pass, tree, blacklist)
    else if fuel == 0 then (Fail("OutOfFuel"), tree, blacklist)
    else if m.from == m.to then (Fail("IllegalArgumentException"), m.tree, blacklist)
    else
      var merged := MergedPair(classes, rank, common, b, m.from, m.to);
      var res := if merged.Some? then RemapStat(m.tree, m.from, m.to, merged.value) else Remapped(m.tree, false);
      MergeRounds(orig, classes, rank, common, b, parent, res.tree,
                  if res.success then blacklist else blacklist[m.from := m.to], fuel - 1)
  }

  /** The rounds keep the tree's shape, and they pass only once a search from the parent
    * scope with the final blacklist finds no clash. */
  lemma {:induction false} MergeRoundsMeans(orig: int -> int, classes: map<string, StructClass>,
      rank: map<string, nat>, common: (VarType, VarType) -> Option<VarType>, b: Bounds, parent: Scope,
      tree: Statement, blacklist: Blacklist, fuel: nat)
    requires Ranked(classes, rank)
    ensures var res := MergeRounds(orig, classes, rank, common, b, parent, tree, blacklist, fuel);
      SameShape(tree, res.1) &&
      (res.0.Pass? ==> MergeStat(Ctx(orig, res.2), res.1, parent).Clean?) &&
      (res.0.Fail? ==> res.0.error == "IllegalArgumentException" || res.0.error == "OutOfFuel")
    decreases fuel
  {
    var m := MergeStat(Ctx(orig, blacklist), tree, parent);
    if m.Clean? || fuel == 0 {
      SameShapeRefl(tree);
    } else {
      MergeStatClash(Ctx(orig, blacklist), tree, parent);
      DroppedShape(tree, m.tree, m.from);
      if m.from != m.to {
        var merged := MergedPair(classes, rank, common, b, m.from, m.to);
        var res := if merged.Some? then RemapStat(m.tree, m.from, m.to, merged.value) else Remapped(m.tree, false);
        if merged.Some? {
          RemapShape(m.tree, m.from, m.to, merged.value);
        } else {
          SameShapeRefl(m.tree);
        }
        var bl := if res.success then blacklist else blacklist[m.from := m.to];
        MergeRoundsMeans(orig, classes, rank, common, b, parent, res.tree, bl, fuel - 1);
        SameShapeTrans(tree, m.tree, res.tree);
        SameShapeTrans(tree, res.tree, MergeRounds(orig, classes, rank, common, b, parent, res.tree, bl, fuel - 1).1);
      }
    }
  }

  /** Removing a clashing definition keeps the tree's shape. */
  lemma {:induction false} DroppedShape(s: Statement, tree: Statement, from: VarVersionPair)
    requires Dropped(s, tree, from)
    ensures SameShape(s, tree)
    decreases s
  {
    SameShapeRefl(s);
    if tree != s && !(tree == s.(varDefs := tree.varDefs)) {
      var j :| 0 <= j < |s.stats| && tree == s.(stats := s.stats[j := tree.stats[j]]) &&
               Dropped(s.stats[j], tree.stats[j], from);
      DroppedShape(s.stats[j], tree.stats[j], from);
      forall k | 0 <= k < |s.stats|
        ensures SameShape(s.stats[k], tree.stats[k])
      {
        if k != j {
          assert tree.stats[k] == s.stats[k];
        }
      }
    }
  }

  /** Remapping a variable keeps the tree's shape. */
  lemma {:induction false} RemapShape(s: Statement, from: VarVersionPair, to: VarVersionPair, m: VarType)
    requires from != to
    ensures SameShape(s, RemapStat(s, from, to, m).tree)
    decreases s
  {
    var t := RemapStat(s, from, to, m).tree;
    if s.exprents.Some? {
      assert t.stats == s.stats;
      SameShapeRefl(s);
    } else {
      var cs := RemapChildren(s, |s.stats|, from, to, m);
      assert t.stats == cs;
      forall k | 0 <= k < |s.stats|
        ensures SameShape(s.stats[k], t.stats[k])
      {
        RemapShape(s.stats[k], from, to, m);
      }
    }
  }

  lemma {:induction false} SameShapeTrans(a: Statement, b: Statement, c: Statement)
    requires SameShape(a, b) && SameShape(b, c)
    ensures SameShape(a, c)
  {
    forall k | 0 <= k < |a.stats|
      ensures SameShape(a.stats[k], c.stats[k])
    {
      SameShapeTrans(a.stats[k], b.stats[k], c.stats[k]);
    }
  }

  /** A tree of the same shape keeps every recorded path valid. */
  lemma ShapeKeepsPaths(a: Statement, b: Statement, paths: map<int, seq<nat>>)
    requires SameShape(a, b)
    requires forall k :: k in paths ==> ValidPath(a, paths[k])
    ensures forall k :: k in paths ==> ValidPath(b, paths[k])
  {
    forall k | k in paths
      ensures ValidPath(b, paths[k])
    {
      SameShapePath(a, b, paths[k]);
    }
  }

  /** Declaring `order[i]` keeps the declarations of the slots before it and adds its own. */
  lemma DeclaredKept(root: Statement, statVars: map<int, set<int>>, implDefVars: set<int>,
                     varType: VarType, order: seq<int>, i: nat, path: seq<nat>)
    requires i < |order| && ValidPath(root, path)
    requires forall a, b :: 0 <= a < b < |order| ==> order[a] != order[b]
    requires AllDeclared(root, implDefVars, order, i)
    requires DefineSlot(root, statVars, implDefVars, varType, order[i], path).Success?
    ensures AllDeclared(DefineSlot(root, statVars, implDefVars, varType, order[i], path).value, implDefVars, order, i + 1)
  {
    var t := DefineSlot(root, statVars, implDefVars, varType, order[i], path).value;
    DefineSlotMeans(root, statVars, implDefVars, varType, order[i], path);
    forall j | 0 <= j < i + 1 && order[j] !in implDefVars
      ensures exists p :: ValidPath(t, p) && HasDeclaration(At(t, p), order[j])
    {
      if j < i {
        var p :| ValidPath(root, p) && HasDeclaration(At(root, p), order[j]);
        DefineSlotKeeps(root, statVars, implDefVars, varType, order[i], path, order[j], p);
      }
    }
  }
}
