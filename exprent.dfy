/**
 * The expression tree (`Exprent` and the subclasses the variable and flow passes look into),
 * with the tree utilities of `Exprent`: descendant collection, containment, the variable set,
 * the definition-grouping `sortIndexed`, bytecode offsets and `findObject`.
 *
 * The subclasses are not part of this model.  Their `getAllExprents()` (the direct children)
 * is taken to be: an assignment's left then right side; an operator's operands; an
 * invocation's instance (when present) then its arguments; a field access's instance (when
 * present); an exit's value (when present); nothing for variables and constants.  Their
 * `equals` is taken to be structural, which is datatype equality here.
 */
module Exprents {
  import opened Wrappers

  /** `CodeConstants.TYPE_OBJECT` and `TYPE_NULL` (CodeConstants.java is not part of this
    * model). */
  const TYPE_OBJECT: int := 8
  const TYPE_NULL: int := 13

  /** A `VarType`: its type code, array dimension and class name (empty for `null`). */
  datatype VarType = VarType(typeCode: int, arrayDim: nat, value: string)

  /** `VarType.VARTYPE_NULL`. */
  const VARTYPE_NULL: VarType := VarType(TYPE_NULL, 0, "")

  /** `new VarType(CodeConstants.TYPE_OBJECT, 0, name)`. */
  function ObjectType(name: string): VarType { VarType(TYPE_OBJECT, 0, name) }

  /** `ExitExprent.EXIT_RETURN`. */
  const EXIT_RETURN: int := 0

  /** `FunctionExprent.FUNCTION_IMM` .. `FUNCTION_PPI`: the four increment and decrement
    * operators (FunctionExprent.java is not part of this model). */
  const FUNCTION_IMM: int := 32
  const FUNCTION_PPI: int := 35

  /** `VarVersionPair`: a slot and a version of it. */
  datatype VarVersionPair = VarVersionPair(index: int, version: int)

  datatype Exprent =
    | Var(index: int, version: int, definition: bool, varType: VarType)
    | Assignment(left: Exprent, right: Exprent)
    | Const(constType: VarType, value: int)
    | Function(funcType: int, operands: seq<Exprent>)
    | Invocation(instance: Option<Exprent>, classname: string, parameters: seq<Exprent>)
    | Field(instance: Option<Exprent>, classname: string)
    | Exit(exitType: int, exitValue: Option<Exprent>, retType: VarType)
    /** Array access, `new`, `if`, `switch`, monitor, annotation and assert nodes: only their
      * operands matter to the passes modelled here. */
    | Other(exprType: int, operands: seq<Exprent>)
  {
    /** `getVarVersionPair()` of a variable. */
    function Pair(): VarVersionPair
      requires Var?
    {
      VarVersionPair(index, version)
    }

    /** `exp instanceof VarExprent && ((VarExprent)exp).isDefinition()`. */
    predicate IsDefinition()
    {
      Var? && definition
    }
  }

  function OptionList(o: Option<Exprent>): seq<Exprent>
  {
    if o.Some? then [o.value] else []
  }

  /** `getAllExprents()`: the direct children, in order. */
  function Children(e: Exprent): (r: seq<Exprent>)
    ensures forall k :: 0 <= k < |r| ==> r[k] < e
    ensures e.Var? || e.Const? ==> r == []
  {
    match e
    case Var(_, _, _, _) => []
    case Const(_, _) => []
    case Assignment(l, r) => [l, r]
    case Function(_, ops) => ops
    case Invocation(inst, _, ps) => OptionList(inst) + ps
    case Field(inst, _) => OptionList(inst)
    case Exit(_, v, _) => OptionList(v)
    case Other(_, ops) => ops
  }

  // ---------------------------------------------------------------------------------------
  // getAllExprents(true)

  /**
   * `getAllExprents(true)`: the children, then the descendants of the last child, then of
   * the one before it, and so on back to the first.  The loop walks the original children
   * from the last down, so what it appends is never expanded again.
   */
  function Desc(e: Exprent): seq<Exprent>
    decreases e, |Children(e)| + 1
  {
    Children(e) + DescFrom(e, 0)
  }

  /** The descendants of children `j..` of `e`, last child first. */
  function DescFrom(e: Exprent, j: nat): seq<Exprent>
    requires j <= |Children(e)|
    decreases e, |Children(e)| - j
  {
    if j == |Children(e)| then [] else DescFrom(e, j + 1) + Desc(Children(e)[j])
  }

  /** `getAllExprents(recursive)`, the loop extending the list it walks. */
  method GetAllExprents(e: Exprent, recursive: bool) returns (lst: seq<Exprent>)
    ensures !recursive ==> lst == Children(e)
    ensures recursive ==> lst == Desc(e)
    decreases e
  {
    lst := Children(e);
    if recursive {
      var n := |lst|;
      var i := n - 1;
      while i >= 0
        invariant -1 <= i < n && n == |Children(e)|
        invariant lst == Children(e) + DescFrom(e, i + 1)
      {
        assert lst[i] == Children(e)[i];
        var sub := GetAllExprents(lst[i], true);
        DescFromStep(e, i, sub);
        lst := lst + sub;
        i := i - 1;
      }
    }
  }

  lemma DescFromStep(e: Exprent, i: nat, sub: seq<Exprent>)
    requires i < |Children(e)| && sub == Desc(Children(e)[i])
    ensures Children(e) + DescFrom(e, i + 1) + sub == Children(e) + DescFrom(e, i)
  {
    assert DescFrom(e, i) == DescFrom(e, i + 1) + sub;
    ConcatAssoc(Children(e), DescFrom(e, i + 1), sub);
  }

  /** A node is a descendant exactly when it is a child or a descendant of a child. */
  lemma {:induction false} DescMembers(e: Exprent, x: Exprent)
    ensures x in Desc(e) <==> exists k :: 0 <= k < |Children(e)| && (Children(e)[k] == x || x in Desc(Children(e)[k]))
  {
    DescFromMembers(e, 0, x);
  }

  lemma DescFromMembers(e: Exprent, j: nat, x: Exprent)
    requires j <= |Children(e)|
    ensures x in DescFrom(e, j) <==> exists k :: j <= k < |Children(e)| && x in Desc(Children(e)[k])
  {
    var bs := DescBits(e, x);
    DescFromAny(e, j, x);
    AnyFromMeans(bs, j);
  }

  /** For each child of `e`, whether `x` is among its descendants. */
  ghost function DescBits(e: Exprent, x: Exprent): (bs: seq<bool>)
    ensures |bs| == |Children(e)|
    ensures forall k :: 0 <= k < |bs| ==> bs[k] == (x in Desc(Children(e)[k]))
  {
    seq(|Children(e)|, k requires 0 <= k < |Children(e)| => x in Desc(Children(e)[k]))
  }

  /** Some entry from `j` on holds. */
  predicate AnyFrom(bs: seq<bool>, j: nat)
    requires j <= |bs|
    decreases |bs| - j
  {
    j < |bs| && (bs[j] || AnyFrom(bs, j + 1))
  }

  lemma {:induction false} AnyFromMeans(bs: seq<bool>, j: nat)
    requires j <= |bs|
    ensures AnyFrom(bs, j) <==> exists k :: j <= k < |bs| && bs[k]
    decreases |bs| - j
  {
    if j < |bs| {
      AnyFromMeans(bs, j + 1);
      if bs[j] {
        assert j <= j < |bs| && bs[j];
      } else if exists k :: j <= k < |bs| && bs[k] {
        var k :| j <= k < |bs| && bs[k];
        assert j + 1 <= k < |bs| && bs[k];
      }
    }
  }

  lemma InConcat<T>(a: seq<T>, b: seq<T>, x: T)
    ensures x in a + b <==> x in a || x in b
  {
  }

  lemma {:induction false} DescFromAny(e: Exprent, j: nat, x: Exprent)
    requires j <= |Children(e)|
    ensures x in DescFrom(e, j) <==> AnyFrom(DescBits(e, x), j)
    decreases |Children(e)| - j
  {
    if j < |Children(e)| {
      var c := Children(e)[j];
      var bs := DescBits(e, x);
      DescFromAny(e, j + 1, x);
      assert DescFrom(e, j) == DescFrom(e, j + 1) + Desc(c);
      InConcat(DescFrom(e, j + 1), Desc(c), x);
      assert bs[j] == (x in Desc(c));
      assert AnyFrom(bs, j) == (bs[j] || AnyFrom(bs, j + 1));
    }
  }

  /** Every descendant is strictly smaller than the node. */
  lemma {:induction false} DescSmaller(e: Exprent, x: Exprent)
    requires x in Desc(e)
    ensures x < e
    decreases e
  {
    DescMembers(e, x);
    var k :| 0 <= k < |Children(e)| && (Children(e)[k] == x || x in Desc(Children(e)[k]));
    if Children(e)[k] != x {
      DescSmaller(Children(e)[k], x);
    }
  }

  /** Each original child is expanded exactly once: the collection is as long as the
    * subtree below `e`. */
  function Size(e: Exprent): nat
    decreases e, |Children(e)| + 1
  {
    1 + SizeFrom(e, 0)
  }

  function SizeFrom(e: Exprent, j: nat): nat
    requires j <= |Children(e)|
    decreases e, |Children(e)| - j
  {
    if j == |Children(e)| then 0 else Size(Children(e)[j]) + SizeFrom(e, j + 1)
  }

  lemma {:induction false} DescLength(e: Exprent)
    ensures |Desc(e)| == Size(e) - 1
    decreases e, |Children(e)| + 1
  {
    DescFromLength(e, 0);
  }

  lemma {:induction false} DescFromLength(e: Exprent, j: nat)
    requires j <= |Children(e)|
    ensures |DescFrom(e, j)| + (|Children(e)| - j) == SizeFrom(e, j)
    decreases e, |Children(e)| - j
  {
    if j < |Children(e)| {
      DescFromLength(e, j + 1);
      DescLength(Children(e)[j]);
    }
  }

  // ---------------------------------------------------------------------------------------
  // containsExprent

  /** `containsExprent(x)`: `e` equals `x`, or a child (tried last to first) contains it. */
  function ContainsExprent(e: Exprent, x: Exprent): bool
    decreases e, |Children(e)| + 1
  {
    e == x || ChildContains(e, |Children(e)|, x)
  }

  /** Whether one of the children below position `i` contains `x`, trying `i - 1` first. */
  function ChildContains(e: Exprent, i: nat, x: Exprent): bool
    requires i <= |Children(e)|
    decreases e, i
  {
    if i == 0 then false
    else ContainsExprent(Children(e)[i - 1], x) || ChildContains(e, i - 1, x)
  }

  /** `containsExprent(x)` holds exactly when `x` is `e` or one of its descendants. */
  lemma {:induction false} ContainsIsSubtree(e: Exprent, x: Exprent)
    ensures ContainsExprent(e, x) <==> e == x || x in Desc(e)
    decreases e, |Children(e)| + 1
  {
    ChildContainsIsSubtree(e, |Children(e)|, x);
    DescMembers(e, x);
  }

  lemma ChildContainsIsSubtree(e: Exprent, i: nat, x: Exprent)
    requires i <= |Children(e)|
    ensures ChildContains(e, i, x) <==>
      exists k :: 0 <= k < i && (Children(e)[k] == x || x in Desc(Children(e)[k]))
    decreases e, i, 2
  {
    ChildContainsHas(e, i, x);
    SomeChildHasMeans(e, i, x);
  }

  /** One of the children below position `i` is `x` or has it below, child by child. */
  ghost predicate SomeChildHas(e: Exprent, i: nat, x: Exprent)
    requires i <= |Children(e)|
  {
    i > 0 && (SomeChildHas(e, i - 1, x) || Children(e)[i - 1] == x || x in Desc(Children(e)[i - 1]))
  }

  lemma {:induction false} ChildContainsHas(e: Exprent, i: nat, x: Exprent)
    requires i <= |Children(e)|
    ensures ChildContains(e, i, x) == SomeChildHas(e, i, x)
    decreases e, i, 1
  {
    if i > 0 {
      var c := Children(e)[i - 1];
      ChildContainsStep(e, i, x);
      ChildContainsHas(e, i - 1, x);
      assert SomeChildHas(e, i, x) == (SomeChildHas(e, i - 1, x) || c == x || x in Desc(c));
    }
  }

  lemma {:induction false} SomeChildHasMeans(e: Exprent, i: nat, x: Exprent)
    requires i <= |Children(e)|
    ensures SomeChildHas(e, i, x) <==>
      exists k :: 0 <= k < i && (Children(e)[k] == x || x in Desc(Children(e)[k]))
  {
    if i > 0 {
      SomeChildHasMeans(e, i - 1, x);
      SomeChildHasStep(e, i, x);
    }
  }

  lemma ChildContainsStep(e: Exprent, i: nat, x: Exprent)
    requires 0 < i <= |Children(e)|
    ensures var c := Children(e)[i - 1];
      ChildContains(e, i, x) <==> ChildContains(e, i - 1, x) || c == x || x in Desc(c)
    decreases e, i, 0
  {
    ContainsIsSubtree(Children(e)[i - 1], x);
  }

  lemma SomeChildHasStep(e: Exprent, i: nat, x: Exprent)
    requires 0 < i <= |Children(e)|
    ensures var cs := Children(e);
      (exists k :: 0 <= k < i && (cs[k] == x || x in Desc(cs[k]))) <==>
      (exists k :: 0 <= k < i - 1 && (cs[k] == x || x in Desc(cs[k]))) || cs[i - 1] == x || x in Desc(cs[i - 1])
  {
    var cs := Children(e);
    if exists k :: 0 <= k < i && (cs[k] == x || x in Desc(cs[k])) {
      var k :| 0 <= k < i && (cs[k] == x || x in Desc(cs[k]));
      if k < i - 1 {
        assert 0 <= k < i - 1 && (cs[k] == x || x in Desc(cs[k]));
      }
    }
    if exists k :: 0 <= k < i - 1 && (cs[k] == x || x in Desc(cs[k])) {
      var k :| 0 <= k < i - 1 && (cs[k] == x || x in Desc(cs[k]));
      assert 0 <= k < i && (cs[k] == x || x in Desc(cs[k]));
    }
  }

  // ---------------------------------------------------------------------------------------
  // getAllVariables

  /** The variables of a list of nodes, as version pairs. */
  function VarPairs(lst: seq<Exprent>): (r: set<VarVersionPair>)
    ensures forall p :: p in r <==> exists k :: 0 <= k < |lst| && lst[k].Var? && lst[k].Pair() == p
  {
    if |lst| == 0 then {}
    else
      var rest := VarPairs(lst[1..]);
      assert forall k :: 1 <= k < |lst| ==> lst[k] == lst[1..][k - 1];
      (if lst[0].Var? then {lst[0].Pair()} else {}) + rest
  }

  /** `getAllVariables()`: the version pairs of the variable nodes of the subtree, `e`
    * included. */
  method GetAllVariables(e: Exprent) returns (vars: set<VarVersionPair>)
    ensures forall p :: p in vars <==> InSubtree(e, p)
  {
    var lst := GetAllExprents(e, true);
    lst := lst + [e];
    vars := {};
    var i := 0;
    while i < |lst|
      invariant 0 <= i <= |lst|
      invariant vars == VarPairs(lst[..i])
    {
      if lst[i].Var? {
        vars := vars + {lst[i].Pair()};
      }
      VarPairsSnoc(lst, i);
      i := i + 1;
    }
    assert lst[..i] == Desc(e) + [e];
    SubtreeVarPairs(e);
  }

  lemma VarPairsSnoc(lst: seq<Exprent>, i: nat)
    requires i < |lst|
    ensures VarPairs(lst[..i + 1]) == VarPairs(lst[..i]) + (if lst[i].Var? then {lst[i].Pair()} else {})
  {
    VarPairsAppend(lst[..i], [lst[i]]);
    assert lst[..i + 1] == lst[..i] + [lst[i]];
    assert VarPairs([lst[i]]) == (if lst[i].Var? then {lst[i].Pair()} else {}) + VarPairs([]);
  }

  /** The variables of the nodes walked by `getAllVariables` are those of the subtree. */
  lemma SubtreeVarPairs(e: Exprent)
    ensures forall p :: p in VarPairs(Desc(e) + [e]) <==> InSubtree(e, p)
  {
    var lst := Desc(e) + [e];
    forall p ensures p in VarPairs(lst) <==> InSubtree(e, p)
    {
      if p in VarPairs(lst) {
        var k :| 0 <= k < |lst| && lst[k].Var? && lst[k].Pair() == p;
        if k < |lst| - 1 {
          assert lst[k] in Desc(e);
        }
      }
      if InSubtree(e, p) {
        if e.Var? && e.Pair() == p {
          assert lst[|lst| - 1] == e;
        } else {
          var x :| x in Desc(e) && x.Var? && x.Pair() == p;
          var k :| 0 <= k < |Desc(e)| && Desc(e)[k] == x;
          assert lst[k] == x;
        }
      }
    }
  }

  lemma {:induction false} VarPairsAppend(a: seq<Exprent>, b: seq<Exprent>)
    ensures VarPairs(a + b) == VarPairs(a) + VarPairs(b)
  {
    var ab := a + b;
    forall p ensures p in VarPairs(ab) <==> p in VarPairs(a) + VarPairs(b)
    {
      if p in VarPairs(ab) {
        var k :| 0 <= k < |ab| && ab[k].Var? && ab[k].Pair() == p;
        if k >= |a| {
          assert b[k - |a|] == ab[k];
        } else {
          assert a[k] == ab[k];
        }
      }
      if p in VarPairs(a) {
        var k :| 0 <= k < |a| && a[k].Var? && a[k].Pair() == p;
        assert ab[k] == a[k];
      }
      if p in VarPairs(b) {
        var k :| 0 <= k < |b| && b[k].Var? && b[k].Pair() == p;
        assert ab[|a| + k] == b[k];
      }
    }
  }

  /** The variable set of a node is its own pair, if a variable, and its children's sets:
    * the set does not depend on the order of collection. */
  lemma {:induction false} VariablesOfChildren(e: Exprent, p: VarVersionPair)
    ensures ((e.Var? && e.Pair() == p) || exists x :: x in Desc(e) && x.Var? && x.Pair() == p) <==>
      (e.Var? && e.Pair() == p) ||
      exists k :: 0 <= k < |Children(e)| && InSubtree(Children(e)[k], p)
  {
    if exists x :: x in Desc(e) && x.Var? && x.Pair() == p {
      var x :| x in Desc(e) && x.Var? && x.Pair() == p;
      DescMembers(e, x);
      var k :| 0 <= k < |Children(e)| && (Children(e)[k] == x || x in Desc(Children(e)[k]));
      assert InSubtree(Children(e)[k], p);
    }
    if exists k :: 0 <= k < |Children(e)| && InSubtree(Children(e)[k], p) {
      var k :| 0 <= k < |Children(e)| && InSubtree(Children(e)[k], p);
      var c := Children(e)[k];
      if c.Var? && c.Pair() == p {
        DescMembers(e, c);
      } else {
        var x :| x in Desc(c) && x.Var? && x.Pair() == p;
        DescMembers(e, x);
      }
    }
  }

  /** `p` is the pair of a variable node in the subtree of `e`. */
  ghost predicate InSubtree(e: Exprent, p: VarVersionPair)
  {
    (e.Var? && e.Pair() == p) || exists x :: x in Desc(e) && x.Var? && x.Pair() == p
  }

  // ---------------------------------------------------------------------------------------
  // sortIndexed

  /** The definitions among `s` whose slot is `k`, in order. */
  function DefsAt(s: seq<Exprent>, k: int): seq<Exprent>
  {
    if |s| == 0 then []
    else DefsAt(s[..|s| - 1], k) + (if s[|s| - 1].Var? && s[|s| - 1].index == k then [s[|s| - 1]] else [])
  }

  /** Only variable nodes. */
  predicate AllVars(s: seq<Exprent>)
  {
    forall i :: 0 <= i < |s| ==> s[i].Var?
  }

  /** Ordered by slot index, as the `sortIndexed` comparator orders definitions. */
  ghost predicate SortedByIndex(s: seq<Exprent>)
    requires AllVars(s)
  {
    forall i, j :: 0 <= i < j < |s| ==> s[i].index <= s[j].index
  }

  /** Inserts `x` after every element whose slot is not greater (keeps equal slots in
    * arrival order). */
  function Insert(sorted: seq<Exprent>, x: Exprent): (r: seq<Exprent>)
    requires x.Var? && AllVars(sorted)
    ensures |r| == |sorted| + 1
    ensures AllVars(r)
    ensures x.definition && AllDefs(sorted) ==> AllDefs(r)
  {
    if |sorted| == 0 then [x]
    else if sorted[|sorted| - 1].index <= x.index then sorted + [x]
    else
      var r := Insert(sorted[..|sorted| - 1], x) + [sorted[|sorted| - 1]];
      assert sorted == sorted[..|sorted| - 1] + [sorted[|sorted| - 1]];
      r
  }

  /** `Collections.sort(defs, comp)`: a stable sort by slot index. */
  function StableSort(s: seq<Exprent>): (r: seq<Exprent>)
    requires AllVars(s)
    ensures |r| == |s|
    ensures AllVars(r)
    ensures AllDefs(s) ==> AllDefs(r)
  {
    if |s| == 0 then []
    else
      assert s == s[..|s| - 1] + [s[|s| - 1]];
      Insert(StableSort(s[..|s| - 1]), s[|s| - 1])
  }

  /** `Insert` adds exactly `x`. */
  lemma {:induction false} InsertPermutes(sorted: seq<Exprent>, x: Exprent)
    requires x.Var? && AllVars(sorted)
    ensures multiset(Insert(sorted, x)) == multiset(sorted) + multiset{x}
  {
    var n := |sorted|;
    if n > 0 && sorted[n - 1].index > x.index {
      InsertPermutes(sorted[..n - 1], x);
      assert sorted == sorted[..n - 1] + [sorted[n - 1]];
    }
  }

  /** `StableSort` only reorders. */
  lemma {:induction false} StableSortPermutes(s: seq<Exprent>)
    requires AllVars(s)
    ensures multiset(StableSort(s)) == multiset(s)
  {
    if |s| > 0 {
      StableSortPermutes(s[..|s| - 1]);
      InsertPermutes(StableSort(s[..|s| - 1]), s[|s| - 1]);
      assert s == s[..|s| - 1] + [s[|s| - 1]];
    }
  }

  lemma {:induction false} InsertBounded(sorted: seq<Exprent>, x: Exprent, b: int)
    requires x.Var? && AllVars(sorted)
    requires x.index <= b && forall i :: 0 <= i < |sorted| ==> sorted[i].index <= b
    ensures forall i :: 0 <= i < |Insert(sorted, x)| ==> Insert(sorted, x)[i].index <= b
  {
    if |sorted| > 0 && sorted[|sorted| - 1].index > x.index {
      InsertBounded(sorted[..|sorted| - 1], x, b);
    }
  }

  lemma {:induction false} InsertSorted(sorted: seq<Exprent>, x: Exprent)
    requires x.Var? && AllVars(sorted) && SortedByIndex(sorted)
    ensures SortedByIndex(Insert(sorted, x))
  {
    var n := |sorted|;
    if n > 0 && sorted[n - 1].index > x.index {
      var init := sorted[..n - 1];
      var last := sorted[n - 1];
      InsertSorted(init, x);
      InsertBounded(init, x, last.index);
    }
  }

  lemma {:induction false} InsertKeepsSlots(sorted: seq<Exprent>, x: Exprent, k: int)
    requires x.Var? && AllVars(sorted)
    ensures DefsAt(Insert(sorted, x), k) == DefsAt(sorted, k) + DefsAt([x], k)
  {
    var n := |sorted|;
    assert [x][..0] == [];
    if n > 0 && sorted[n - 1].index > x.index {
      var init := sorted[..n - 1];
      var last := sorted[n - 1];
      InsertKeepsSlots(init, x, k);
      var r := Insert(init, x) + [last];
      assert r[..|r| - 1] == Insert(init, x);
    } else if n > 0 {
      var r := sorted + [x];
      assert r[..|r| - 1] == sorted;
    }
  }

  /** `StableSort` sorts by slot. */
  lemma {:induction false} StableSortSorted(s: seq<Exprent>)
    requires AllVars(s)
    ensures SortedByIndex(StableSort(s))
  {
    if |s| > 0 {
      var init := s[..|s| - 1];
      StableSortSorted(init);
      InsertSorted(StableSort(init), s[|s| - 1]);
    }
  }

  /** `StableSort` keeps the order of the definitions of each slot: with the ordering this
    * determines its result. */
  lemma {:induction false} StableSortIsStable(s: seq<Exprent>, k: int)
    requires AllVars(s)
    ensures DefsAt(StableSort(s), k) == DefsAt(s, k)
  {
    if |s| > 0 {
      var init := s[..|s| - 1];
      var last := s[|s| - 1];
      StableSortIsStable(init, k);
      InsertKeepsSlots(StableSort(init), last, k);
      assert StableSort(s) == Insert(StableSort(init), last);
      assert [last][..0] == [];
      assert DefsAt([last], k) == (if last.Var? && last.index == k then [last] else []);
      assert DefsAt(s, k) == DefsAt(init, k) + DefsAt([last], k);
    }
  }

  /** Only definitions. */
  predicate AllDefs(s: seq<Exprent>)
  {
    forall i :: 0 <= i < |s| ==> s[i].Var? && s[i].definition
  }

  /** Emits the pending definitions, stably sorted, after `ret`. */
  function Flush(ret: seq<Exprent>, defs: seq<Exprent>): seq<Exprent>
    requires AllDefs(defs)
  {
    if |defs| > 0 then ret + StableSort(defs) else ret
  }

  lemma AllDefsSnoc(defs: seq<Exprent>, x: Exprent)
    requires AllDefs(defs) && x.IsDefinition()
    ensures AllDefs(defs + [x])
  {
  }

  /** The tail of the `sortIndexed` loop: `ret` and the pending definitions `defs` so far,
    * then the rest of the input. */
  function SortIndexedFrom(rest: seq<Exprent>, ret: seq<Exprent>, defs: seq<Exprent>): seq<Exprent>
    requires AllDefs(defs)
  {
    if |rest| == 0 then Flush(ret, defs)
    else if !rest[0].IsDefinition() then SortIndexedFrom(rest[1..], Flush(ret, defs) + [rest[0]], [])
    else SortIndexedFrom(rest[1..], ret, defs + [rest[0]])
  }

  /** `sortIndexed(lst)`. */
  function SortIndexedSpec(lst: seq<Exprent>): seq<Exprent>
  {
    SortIndexedFrom(lst, [], [])
  }

  /** `sortIndexed(lst)`: each run of definitions, stably sorted by slot, emitted where the
    * run ends. */
  method SortIndexed(lst: seq<Exprent>) returns (ret: seq<Exprent>)
    ensures ret == SortIndexedSpec(lst)
  {
    ret := [];
    var defs: seq<Exprent> := [];
    var i := 0;
    while i < |lst|
      invariant 0 <= i <= |lst|
      invariant AllDefs(defs)
      invariant SortIndexedFrom(lst[i..], ret, defs) == SortIndexedSpec(lst)
    {
      var exp := lst[i];
      var isDef := exp.IsDefinition();
      assert lst[i..][1..] == lst[i + 1..];
      if !isDef {
        if |defs| > 0 {
          ret := ret + StableSort(defs);
          defs := [];
        }
        ret := ret + [exp];
      } else {
        defs := defs + [exp];
      }
      i := i + 1;
    }
    if |defs| > 0 {
      ret := ret + StableSort(defs);
    }
  }

  /** `sortIndexed` only reorders: same elements, same length. */
  lemma {:induction false} SortIndexedPermutes(rest: seq<Exprent>, ret: seq<Exprent>, defs: seq<Exprent>)
    requires AllDefs(defs)
    ensures multiset(SortIndexedFrom(rest, ret, defs)) == multiset(ret) + multiset(defs) + multiset(rest)
    decreases |rest|
  {
    StableSortPermutes(defs);
    var flushed := Flush(ret, defs);
    assert multiset(flushed) == multiset(ret) + multiset(defs);
    if |rest| > 0 {
      var x := rest[0];
      assert multiset(rest) == multiset{x} + multiset(rest[1..]) by {
        assert rest == [x] + rest[1..];
      }
      if !x.IsDefinition() {
        SortIndexedPermutes(rest[1..], flushed + [x], []);
      } else {
        AllDefsSnoc(defs, x);
        SortIndexedPermutes(rest[1..], ret, defs + [x]);
      }
    }
  }

  /** The entries that are not definitions keep their relative order. */
  function NonDefs(s: seq<Exprent>): seq<Exprent>
  {
    if |s| == 0 then [] else (if s[0].IsDefinition() then [] else [s[0]]) + NonDefs(s[1..])
  }

  lemma {:induction false} NonDefsAppend(a: seq<Exprent>, b: seq<Exprent>)
    ensures NonDefs(a + b) == NonDefs(a) + NonDefs(b)
  {
    if |a| > 0 {
      assert (a + b)[0] == a[0];
      assert (a + b)[1..] == a[1..] + b;
      NonDefsAppend(a[1..], b);
    } else {
      assert a + b == b;
    }
  }

  lemma {:induction false} NonDefsOfDefs(s: seq<Exprent>)
    requires AllDefs(s)
    ensures NonDefs(s) == []
  {
    if |s| > 0 {
      NonDefsOfDefs(s[1..]);
    }
  }

  lemma {:induction false} FlushNonDefs(ret: seq<Exprent>, defs: seq<Exprent>)
    requires AllDefs(defs)
    ensures NonDefs(Flush(ret, defs)) == NonDefs(ret)
  {
    if |defs| > 0 {
      NonDefsOfDefs(StableSort(defs));
      NonDefsAppend(ret, StableSort(defs));
    }
  }

  lemma {:induction false} SortIndexedKeepsNonDefs(rest: seq<Exprent>, ret: seq<Exprent>, defs: seq<Exprent>)
    requires AllDefs(defs)
    ensures NonDefs(SortIndexedFrom(rest, ret, defs)) == NonDefs(ret) + NonDefs(rest)
    decreases |rest|, 1
  {
    if |rest| == 0 {
      FlushNonDefs(ret, defs);
      assert NonDefs(ret) + [] == NonDefs(ret);
    } else if !rest[0].IsDefinition() {
      KeepsNonDefsAtNonDef(rest, ret, defs);
    } else {
      KeepsNonDefsAtDef(rest, ret, defs);
    }
  }

  lemma {:induction false} KeepsNonDefsAtDef(rest: seq<Exprent>, ret: seq<Exprent>, defs: seq<Exprent>)
    requires AllDefs(defs) && |rest| > 0 && rest[0].IsDefinition()
    ensures NonDefs(SortIndexedFrom(rest, ret, defs)) == NonDefs(ret) + NonDefs(rest)
    decreases |rest|, 0
  {
    AllDefsSnoc(defs, rest[0]);
    assert SortIndexedFrom(rest, ret, defs) == SortIndexedFrom(rest[1..], ret, defs + [rest[0]]);
    SortIndexedKeepsNonDefs(rest[1..], ret, defs + [rest[0]]);
    assert NonDefs(rest) == [] + NonDefs(rest[1..]);
  }

  lemma {:induction false} KeepsNonDefsAtNonDef(rest: seq<Exprent>, ret: seq<Exprent>, defs: seq<Exprent>)
    requires AllDefs(defs) && |rest| > 0 && !rest[0].IsDefinition()
    ensures NonDefs(SortIndexedFrom(rest, ret, defs)) == NonDefs(ret) + NonDefs(rest)
    decreases |rest|, 0
  {
    var flushed := Flush(ret, defs);
    assert SortIndexedFrom(rest, ret, defs) == SortIndexedFrom(rest[1..], flushed + [rest[0]], []);
    SortIndexedKeepsNonDefs(rest[1..], flushed + [rest[0]], []);
    FlushNonDefs(ret, defs);
    NonDefsAppend(flushed, [rest[0]]);
    assert NonDefs([rest[0]]) == [rest[0]] by {
      assert [rest[0]][1..] == [];
    }
    assert NonDefs(rest) == [rest[0]] + NonDefs(rest[1..]);
    ConcatAssoc(NonDefs(ret), [rest[0]], NonDefs(rest[1..]));
  }

  /** `sortIndexed` is a permutation of its input in which the non-definitions keep their
    * relative order. */
  lemma {:induction false} SortIndexedIsPermutation(lst: seq<Exprent>)
    ensures multiset(SortIndexedSpec(lst)) == multiset(lst) && |SortIndexedSpec(lst)| == |lst|
    ensures NonDefs(SortIndexedSpec(lst)) == NonDefs(lst)
  {
    SortIndexedPermutes(lst, [], []);
    assert |SortIndexedSpec(lst)| == |multiset(SortIndexedSpec(lst))| == |multiset(lst)|;
    SortIndexedKeepsNonDefs(lst, [], []);
  }

  /** A run of definitions ended by a non-definition is emitted, stably sorted, right before
    * it; a trailing run at the very end. */
  lemma {:induction false} SortIndexedEmitsRuns(run: seq<Exprent>, x: Exprent, rest: seq<Exprent>)
    requires AllDefs(run)
    requires !x.IsDefinition()
    ensures SortIndexedSpec(run + [x] + rest) == StableSort(run) + [x] + SortIndexedSpec(rest)
    ensures SortIndexedSpec(run) == StableSort(run)
  {
    var xs := [x] + rest;
    assert run + [x] + rest == run + xs;
    assert [] + run == run;
    RunAccumulates(run, xs, [], []);
    assert xs[0] == x && xs[1..] == rest;
    var f := Flush([], run);
    assert f == StableSort(run);
    assert SortIndexedFrom(xs, [], run) == SortIndexedFrom(rest, f + [x], []);
    SortIndexedFromShift(rest, f + [x]);
    RunAccumulates(run, [], [], []);
    assert run + [] == run;
  }

  lemma {:induction false} RunAccumulates(run: seq<Exprent>, tail: seq<Exprent>, ret: seq<Exprent>, defs: seq<Exprent>)
    requires AllDefs(run)
    requires AllDefs(defs)
    ensures SortIndexedFrom(run + tail, ret, defs) == SortIndexedFrom(tail, ret, defs + run)
    decreases |run|
  {
    if |run| > 0 {
      assert (run + tail)[1..] == run[1..] + tail;
      assert defs + [run[0]] + run[1..] == defs + run;
      RunAccumulates(run[1..], tail, ret, defs + [run[0]]);
    } else {
      assert run + tail == tail;
      assert defs + run == defs;
    }
  }

  lemma {:induction false} FlushShift(prefix: seq<Exprent>, defs: seq<Exprent>)
    requires AllDefs(defs)
    ensures Flush(prefix, defs) == prefix + Flush([], defs)
  {
    if |defs| == 0 {
      assert prefix + [] == prefix;
    } else {
      assert [] + StableSort(defs) == StableSort(defs);
    }
  }

  lemma {:induction false} SortIndexedFromShift(rest: seq<Exprent>, prefix: seq<Exprent>)
    ensures SortIndexedFrom(rest, prefix, []) == prefix + SortIndexedFrom(rest, [], [])
    decreases |rest|
  {
    SortIndexedFromShiftDefs(rest, prefix, []);
  }

  lemma {:induction false} SortIndexedFromShiftDefs(rest: seq<Exprent>, prefix: seq<Exprent>, defs: seq<Exprent>)
    requires AllDefs(defs)
    ensures SortIndexedFrom(rest, prefix, defs) == prefix + SortIndexedFrom(rest, [], defs)
    decreases |rest|, 1
  {
    if |rest| == 0 {
      FlushShift(prefix, defs);
    } else if !rest[0].IsDefinition() {
      ShiftAtNonDef(rest, prefix, defs);
    } else {
      AllDefsSnoc(defs, rest[0]);
      SortIndexedFromShiftDefs(rest[1..], prefix, defs + [rest[0]]);
    }
  }

  /** The shift when the next entry ends the run of definitions. */
  lemma {:induction false} ShiftAtNonDef(rest: seq<Exprent>, prefix: seq<Exprent>, defs: seq<Exprent>)
    requires AllDefs(defs) && |rest| > 0 && !rest[0].IsDefinition()
    ensures SortIndexedFrom(rest, prefix, defs) == prefix + SortIndexedFrom(rest, [], defs)
    decreases |rest|, 0
  {
    FlushShift(prefix, defs);
    var head := Flush([], defs) + [rest[0]];
    SnocShift(Flush(prefix, defs), prefix, Flush([], defs), rest[0]);
    assert SortIndexedFrom(rest, prefix, defs) == SortIndexedFrom(rest[1..], prefix + head, []);
    assert SortIndexedFrom(rest, [], defs) == SortIndexedFrom(rest[1..], head, []);
    SortIndexedFromShiftDefs(rest[1..], prefix + head, []);
    SortIndexedFromShiftDefs(rest[1..], head, []);
    ConcatAssoc(prefix, head, SortIndexedFrom(rest[1..], [], []));
  }

  lemma SnocShift<T>(f: seq<T>, p: seq<T>, g: seq<T>, x: T)
    requires f == p + g
    ensures f + [x] == p + (g + [x])
  {
  }

  lemma ConcatAssoc<T>(a: seq<T>, b: seq<T>, c: seq<T>)
    ensures a + b + c == a + (b + c)
  {
  }

  // ---------------------------------------------------------------------------------------
  // addBytecodeOffsets

  /** The mutable `bytecode` field of an exprent: the offsets of the instructions decompiled
    * into it, `null` until offsets are first added. */
  class BytecodeOffsets {
    var bytecode: Option<set<nat>>

    constructor ()
      ensures bytecode.None?
    {
      bytecode := None;
    }

    /** `addBytecodeOffsets(offsets)`: `null` changes nothing; otherwise the field becomes
      * the union of the old set (empty if none) and `offsets`. */
    method AddBytecodeOffsets(offsets: Option<set<nat>>)
      modifies this
      ensures offsets.None? ==> bytecode == old(bytecode)
      ensures offsets.Some? ==>
        bytecode == Some((if old(bytecode).Some? then old(bytecode).value else {}) + offsets.value)
    {
      if offsets.Some? {
        if bytecode.None? {
          bytecode := Some({});
        }
        bytecode := Some(bytecode.value + offsets.value);
      }
    }
  }

  // ---------------------------------------------------------------------------------------
  // findObject

  /** Java's `int`. */
  predicate IsInt32(x: int) { -0x8000_0000 <= x < 0x8000_0000 }

  /** Two's-complement wrap-around of an `int` result. */
  function Wrap32(x: int): (r: int)
    ensures IsInt32(r)
    ensures IsInt32(x) ==> r == x
  {
    var m := x % 0x1_0000_0000;
    if m >= 0x8000_0000 then m - 0x1_0000_0000 else m
  }

  /** Java's `%` on `int`: truncating, the remainder takes the sign of the dividend. */
  function JavaRem(a: int, b: int): (r: int)
    requires b > 0
    ensures a >= 0 ==> r == a % b
    ensures a < 0 ==> -b < r <= 0
  {
    if a >= 0 then a % b else -((-a) % b)
  }

  predicate IsDigit(c: char) { '0' <= c <= '9' }

  predicate AllDigits(s: string) { forall i :: 0 <= i < |s| ==> IsDigit(s[i]) }

  /** The text after an optional leading minus. */
  function DigitsPart(s: string): string
  {
    if |s| > 0 && s[0] == '-' then s[1..] else s
  }

  /** `position.matches("-?\\d+")`. */
  predicate IsSignedDecimal(s: string)
  {
    |DigitsPart(s)| > 0 && AllDigits(DigitsPart(s))
  }

  function DigitsValue(s: string): nat
    requires AllDigits(s)
  {
    if |s| == 0 then 0
    else
      assert IsDigit(s[|s| - 1]);
      DigitsValue(s[..|s| - 1]) * 10 + (s[|s| - 1] as int - '0' as int)
  }

  /** The value a signed decimal spells. */
  function DecimalValue(s: string): int
    requires IsSignedDecimal(s)
  {
    if s[0] == '-' then -(DigitsValue(DigitsPart(s)) as int) else DigitsValue(DigitsPart(s))
  }

  /** `Integer.parseInt` of a signed decimal: a `NumberFormatException` outside `int`. */
  function ParseInt(s: string): Result<int>
    requires IsSignedDecimal(s)
  {
    var v := DecimalValue(s);
    if IsInt32(v) then Success(v) else Failure("NumberFormatException")
  }

  /**
   * `findObject(matchNode, index)` over the children: nothing for a non-exprent match node
   * or no children; with a numeric position `p`, the child at `(size + p) % size` (Java
   * arithmetic, so a position below `-size` gives a negative index and fails); with a
   * non-numeric position, nothing; without one, the child at `index` when it is below the
   * size (a negative index fails).
   */
  function FindObject(e: Exprent, isExprentNode: bool, position: Option<string>, index: int): (r: Result<Option<Exprent>>)
    requires IsInt32(index)
  {
    var lst := Children(e);
    if !isExprentNode || |lst| == 0 then Success(None)
    else if position.Some? then
      if IsSignedDecimal(position.value) then
        match ParseInt(position.value)
        case Failure(err) => Failure(err)
        case Success(p) =>
          var k := JavaRem(Wrap32(|lst| + p), |lst|);
          if 0 <= k then Success(Some(lst[k])) else Failure("IndexOutOfBoundsException")
      else Success(None)
    else if index < |lst| then
      if index < 0 then Failure("IndexOutOfBoundsException") else Success(Some(lst[index]))
    else Success(None)
  }

  /** A position `p` in `-size..` (as the rules write them) selects child `(size + p) mod
    * size`: `-1` is the last child, `0` the first. */
  lemma {:induction false} FindObjectPosition(e: Exprent, position: string, p: int)
    requires 0 < |Children(e)| < 0x8000_0000
    requires IsSignedDecimal(position) && DecimalValue(position) == p
    requires -|Children(e)| <= p < 0x8000_0000 - |Children(e)|
    ensures FindObject(e, true, Some(position), 0) == Success(Some(Children(e)[(|Children(e)| + p) % |Children(e)|]))
  {
    var n := |Children(e)|;
    assert ParseInt(position) == Success(p);
    assert IsInt32(n + p);
    assert Wrap32(n + p) == n + p;
    assert JavaRem(n + p, n) == (n + p) % n;
  }

  /** A position below `-size` makes the index negative and the lookup fails. */
  lemma {:induction false} FindObjectNegativePositionFails(e: Exprent, position: string)
    requires |Children(e)| > 0 && IsSignedDecimal(position)
    requires -0x8000_0000 <= DecimalValue(position) < -|Children(e)|
    requires JavaRem(|Children(e)| + DecimalValue(position), |Children(e)|) != 0
    ensures FindObject(e, true, Some(position), 0).Failure?
  {
  }
}
