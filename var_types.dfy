/**
 * The type bounds the variable pass works with: `getMergedType`, which decides whether two
 * versions of a slot can share one declaration and under which type, and
 * `populateTypeBounds`, which narrows each variable's maximum type from the classes it is
 * used as an instance of.
 *
 * VarTypeProcessor.java and VarType.java are not part of this model.  The bounds are two
 * maps from version pairs to types, and `VarType.getCommonSupertype` is a parameter.
 */
module VarTypes {
  import opened Wrappers
  import opened Exprents
  import opened Statements
  import opened StructClasses
  import opened StructContexts

  /** `getMapExprentMinTypes()` and `getMapExprentMaxTypes()`. */
  datatype Bounds = Bounds(minTypes: map<VarVersionPair, VarType>, maxTypes: map<VarVersionPair, VarType>)

  /** `map.get(p)`, `null` as `None`. */
  function Lookup(m: map<VarVersionPair, VarType>, p: VarVersionPair): (r: Option<VarType>)
    ensures r.Some? <==> p in m
    ensures r.Some? ==> r.value == m[p]
  {
    if p in m then Some(m[p]) else None
  }

  /**
   * `getMergedType(fromMin, toMin, fromMax, toMax)`: the type a variable merged from `from`
   * into `to` takes, or `None` when the two cannot be merged.  `common` is
   * `VarType.getCommonSupertype`.
   */
  function MergedType(classes: map<string, StructClass>, ghost rank: map<string, nat>,
                      common: (VarType, VarType) -> Option<VarType>,
                      fromMin: Option<VarType>, toMin: Option<VarType>,
                      fromMax: Option<VarType>, toMax: Option<VarType>): (r: Option<VarType>)
    requires Ranked(classes, rank)
    // equal minimum types short-circuit
    ensures fromMin.Some? && fromMin == toMin ==> r == fromMin
    // a missing minimum type, or no common supertype, prevents the merge
    ensures fromMin.None? || toMin.None? ==> r.None?
    ensures fromMin.Some? && toMin.Some? && fromMin != toMin && common(fromMin.value, toMin.value).None? ==> r.None?
    // a supertype that is not a class is the merged type
    ensures fromMin.Some? && toMin.Some? && fromMin != toMin && common(fromMin.value, toMin.value).Some? &&
            common(fromMin.value, toMin.value).value.typeCode != TYPE_OBJECT ==>
              r == common(fromMin.value, toMin.value)
    // for a class type the result is one of the bounds, and only when its check holds
    ensures fromMin.Some? && toMin.Some? && fromMin != toMin && common(fromMin.value, toMin.value).Some? &&
            common(fromMin.value, toMin.value).value.typeCode == TYPE_OBJECT ==>
              (r.Some? <==> ObjectCheck(classes, rank, fromMin.value, toMin.value, fromMax, toMax)) &&
              (r.Some? ==> r == ObjectChoice(fromMin.value, toMin.value, fromMax, toMax))
  {
    if fromMin.Some? && fromMin == toMin then fromMin
    else
      var t := if fromMin.None? then toMin else if toMin.None? then fromMin else common(fromMin.value, toMin.value);
      if t.None? || fromMin.None? || toMin.None? then None
      else if t.value.typeCode == TYPE_OBJECT then
        if toMax.Some? then
          if fromMax.Some? then
            if InstanceOf(classes, rank, fromMax.value.value, toMax.value.value) then fromMax else None
          else if InstanceOf(classes, rank, fromMin.value.value, toMax.value.value) then fromMin else None
        else if fromMax.Some? then
          if InstanceOf(classes, rank, fromMax.value.value, toMin.value.value) then fromMax else None
        else if InstanceOf(classes, rank, toMin.value.value, fromMin.value.value) then toMin else None
      else t
  }

  /** The bound a class-typed merge would take: `from`'s maximum type when it has one,
    * otherwise `from`'s minimum type when `to` has a maximum, otherwise `to`'s minimum. */
  function ObjectChoice(fromMin: VarType, toMin: VarType, fromMax: Option<VarType>, toMax: Option<VarType>): Option<VarType>
  {
    if fromMax.Some? then fromMax else if toMax.Some? then Some(fromMin) else Some(toMin)
  }

  /** The subtype check that admits `ObjectChoice`: the chosen bound of `from` must be an
    * instance of `to`'s tightest known bound (its maximum, else its minimum); with neither
    * maximum known, `to`'s minimum must be an instance of `from`'s. */
  predicate ObjectCheck(classes: map<string, StructClass>, ghost rank: map<string, nat>,
                        fromMin: VarType, toMin: VarType, fromMax: Option<VarType>, toMax: Option<VarType>)
    requires Ranked(classes, rank)
  {
    if fromMax.Some? then InstanceOf(classes, rank, fromMax.value.value, if toMax.Some? then toMax.value.value else toMin.value)
    else if toMax.Some? then InstanceOf(classes, rank, fromMin.value, toMax.value.value)
    else InstanceOf(classes, rank, toMin.value, fromMin.value)
  }

  /** `getMergedType(from, to)`: the same over the bounds of the two version pairs. */
  function MergedPair(classes: map<string, StructClass>, ghost rank: map<string, nat>,
                      common: (VarType, VarType) -> Option<VarType>, b: Bounds,
                      from: VarVersionPair, to: VarVersionPair): Option<VarType>
    requires Ranked(classes, rank)
  {
    MergedType(classes, rank, common, Lookup(b.minTypes, from), Lookup(b.minTypes, to),
               Lookup(b.maxTypes, from), Lookup(b.maxTypes, to))
  }

  /** When both versions have the same class-typed bounds, the merge keeps them whatever
    * `getCommonSupertype` answers. */
  lemma SameBoundsMerge(classes: map<string, StructClass>, rank: map<string, nat>,
                        common: (VarType, VarType) -> Option<VarType>, b: Bounds,
                        from: VarVersionPair, to: VarVersionPair)
    requires Ranked(classes, rank)
    requires from in b.minTypes && to in b.minTypes && b.minTypes[from] == b.minTypes[to]
    ensures MergedPair(classes, rank, common, b, from, to) == Some(b.minTypes[to])
  {
  }

  // ---------------------------------------------------------------------------------------
  // populateTypeBounds

  /** A node that fixes the class of an instance: an invocation or field access (its
    * instance and owner class) or an exit (for a `return`, the returned value and the return
    * type's class; otherwise nothing). */
  function UseSite(e: Exprent): Option<(Option<Exprent>, Option<string>)>
  {
    match e
    case Invocation(inst, cls, _) => Some((inst, Some(cls)))
    case Field(inst, cls) => Some((inst, Some(cls)))
    case Exit(t, v, rt) => Some(if t == EXIT_RETURN then (v, Some(rt.value)) else (None, None))
    case _ => None
  }

  const JAVA_LANG_OBJECT: string := "java/lang/Object"

  /** The effect of one use site on the maximum types: a variable instance used as class
    * `t` (other than `java/lang/Object`) gets maximum type `t` unless its current maximum is
    * that type already, or is a class that `t` is not an instance of. */
  function Tighten(classes: map<string, StructClass>, ghost rank: map<string, nat>,
                   max: map<VarVersionPair, VarType>, e: Exprent): map<VarVersionPair, VarType>
    requires Ranked(classes, rank) && UseSite(e).Some?
  {
    var (inst, target) := UseSite(e).value;
    if target == Some(JAVA_LANG_OBJECT) then max
    else if inst.Some? && inst.value.Var? && target.Some? then
      var key := inst.value.Pair();
      var newType := ObjectType(target.value);
      var oldMax := Lookup(max, key);
      if Some(newType) != oldMax then
        if oldMax.Some? && oldMax.value.typeCode == TYPE_OBJECT then
          if InstanceOf(classes, rank, newType.value, oldMax.value.value) then max[key := newType] else max
        else max[key := newType]
      else max
    else max
  }

  /** The total size of a list of expressions. */
  function SizeSum(s: seq<Exprent>): nat
  {
    if |s| == 0 then 0 else Exprents.Size(s[0]) + SizeSum(s[1..])
  }

  lemma {:induction false} SizeSumAppend(a: seq<Exprent>, b: seq<Exprent>)
    ensures SizeSum(a + b) == SizeSum(a) + SizeSum(b)
  {
    if |a| > 0 {
      assert (a + b)[1..] == a[1..] + b;
      SizeSumAppend(a[1..], b);
    } else {
      assert a + b == b;
    }
  }

  lemma {:induction false} SizeSumChildren(e: Exprent, j: nat)
    requires j <= |Children(e)|
    ensures SizeSum(Children(e)[j..]) == SizeFrom(e, j)
    decreases |Children(e)| - j
  {
    if j < |Children(e)| {
      assert Children(e)[j..][1..] == Children(e)[j + 1..];
      SizeSumChildren(e, j + 1);
    }
  }

  /** Replacing the first node of a work list by its children shrinks the list. */
  lemma ExpandShrinks(work: seq<Exprent>)
    requires |work| > 0
    ensures SizeSum(work[1..] + Children(work[0])) < SizeSum(work)
  {
    SizeSumAppend(work[1..], Children(work[0]));
    SizeSumChildren(work[0], 0);
    assert Children(work[0])[0..] == Children(work[0]);
  }

  /** The inner work list of `populateTypeBounds`: use sites are applied and not entered;
    * every other node is replaced by its children at the end of the list. */
  function TightenAll(classes: map<string, StructClass>, ghost rank: map<string, nat>,
                      max: map<VarVersionPair, VarType>, work: seq<Exprent>): map<VarVersionPair, VarType>
    requires Ranked(classes, rank)
    decreases SizeSum(work)
  {
    if |work| == 0 then max
    else if UseSite(work[0]).Some? then TightenAll(classes, rank, Tighten(classes, rank, max, work[0]), work[1..])
    else
      ExpandShrinks(work);
      TightenAll(classes, rank, max, work[1..] + Children(work[0]))
  }

  /** The outer work list: statements in breadth-first order, each block's expressions
    * through `TightenAll`. */
  function TightenStats(classes: map<string, StructClass>, ghost rank: map<string, nat>,
                        max: map<VarVersionPair, VarType>, stack: seq<Statement>): map<VarVersionPair, VarType>
    requires Ranked(classes, rank)
    decreases SizeAll(stack)
  {
    if |stack| == 0 then max
    else
      var st := stack[0];
      var m := if st.exprents.Some? then TightenAll(classes, rank, max, st.exprents.value) else max;
      SizeAllAppend(stack[1..], st.stats);
      TightenStats(classes, rank, m, stack[1..] + st.stats)
  }

  /** The inner loop of `populateTypeBounds`. */
  method TightenExprents(classes: map<string, StructClass>, ghost rank: map<string, nat>,
                         max: map<VarVersionPair, VarType>, exps: seq<Exprent>) returns (r: map<VarVersionPair, VarType>)
    requires Ranked(classes, rank)
    ensures r == TightenAll(classes, rank, max, exps)
  {
    var work := exps;
    r := max;
    while |work| > 0
      invariant TightenAll(classes, rank, r, work) == TightenAll(classes, rank, max, exps)
      decreases SizeSum(work)
    {
      var e := work[0];
      if UseSite(e).Some? {
        r := Tighten(classes, rank, r, e);
        work := work[1..];
      } else {
        ExpandShrinks(work);
        work := work[1..] + Children(e);
      }
    }
  }

  /** `populateTypeBounds`: walks the tree from the root, narrowing the maximum types.  The
    * minimum types are left alone. */
  method PopulateTypeBounds(classes: map<string, StructClass>, ghost rank: map<string, nat>,
                            root: Statement, b: Bounds) returns (r: Bounds)
    requires Ranked(classes, rank)
    ensures r.minTypes == b.minTypes
    ensures r.maxTypes == TightenStats(classes, rank, b.maxTypes, [root])
  {
    var stack := [root];
    var max := b.maxTypes;
    while |stack| > 0
      invariant TightenStats(classes, rank, max, stack) == TightenStats(classes, rank, b.maxTypes, [root])
      decreases SizeAll(stack)
    {
      var st := stack[0];
      if st.exprents.Some? {
        max := TightenExprents(classes, rank, max, st.exprents.value);
      }
      SizeAllAppend(stack[1..], st.stats);
      stack := stack[1..] + st.stats;
    }
    r := Bounds(b.minTypes, max);
  }

  /** What a maximum type can become: a class type stays a class type that is an instance of
    * the old one; every entry is either untouched or a plain class type other than
    * `java/lang/Object`. */
  ghost predicate Narrowed(classes: map<string, StructClass>, rank: map<string, nat>,
                           before: map<VarVersionPair, VarType>, after: map<VarVersionPair, VarType>)
    requires Ranked(classes, rank)
  {
    (forall k :: k in before ==> k in after)
    && (forall k :: k in before && before[k].typeCode == TYPE_OBJECT ==>
          after[k].typeCode == TYPE_OBJECT && InstanceOf(classes, rank, after[k].value, before[k].value))
    && (forall k :: k in after ==>
          (k in before && after[k] == before[k]) ||
          (after[k].typeCode == TYPE_OBJECT && after[k].arrayDim == 0 && after[k].value != JAVA_LANG_OBJECT))
  }

  lemma NarrowedRefl(classes: map<string, StructClass>, rank: map<string, nat>, m: map<VarVersionPair, VarType>)
    requires Ranked(classes, rank)
    ensures Narrowed(classes, rank, m, m)
  {
    forall k | k in m
      ensures InstanceOf(classes, rank, m[k].value, m[k].value)
    {
      InstanceOfCharacterised(classes, rank, m[k].value, m[k].value);
    }
  }

  lemma {:induction false} NarrowedTrans(classes: map<string, StructClass>, rank: map<string, nat>,
                                         a: map<VarVersionPair, VarType>, b: map<VarVersionPair, VarType>,
                                         c: map<VarVersionPair, VarType>)
    requires Ranked(classes, rank)
    requires Narrowed(classes, rank, a, b) && Narrowed(classes, rank, b, c)
    ensures Narrowed(classes, rank, a, c)
  {
    forall k | k in a && a[k].typeCode == TYPE_OBJECT
      ensures InstanceOf(classes, rank, c[k].value, a[k].value)
    {
      InstanceOfTransitive(classes, rank, c[k].value, b[k].value, a[k].value);
    }
  }

  /** One use site narrows the maximum types. */
  lemma TightenNarrows(classes: map<string, StructClass>, rank: map<string, nat>,
                       max: map<VarVersionPair, VarType>, e: Exprent)
    requires Ranked(classes, rank) && UseSite(e).Some?
    ensures Narrowed(classes, rank, max, Tighten(classes, rank, max, e))
  {
    var after := Tighten(classes, rank, max, e);
    forall k | k in max && max[k].typeCode == TYPE_OBJECT
      ensures after[k].typeCode == TYPE_OBJECT && InstanceOf(classes, rank, after[k].value, max[k].value)
    {
      InstanceOfCharacterised(classes, rank, max[k].value, max[k].value);
    }
  }

  lemma {:induction false} TightenAllNarrows(classes: map<string, StructClass>, rank: map<string, nat>,
                                             max: map<VarVersionPair, VarType>, work: seq<Exprent>)
    requires Ranked(classes, rank)
    ensures Narrowed(classes, rank, max, TightenAll(classes, rank, max, work))
    decreases SizeSum(work)
  {
    if |work| == 0 {
      NarrowedRefl(classes, rank, max);
    } else if UseSite(work[0]).Some? {
      var m := Tighten(classes, rank, max, work[0]);
      TightenNarrows(classes, rank, max, work[0]);
      TightenAllNarrows(classes, rank, m, work[1..]);
      NarrowedTrans(classes, rank, max, m, TightenAll(classes, rank, max, work));
    } else {
      ExpandShrinks(work);
      TightenAllNarrows(classes, rank, max, work[1..] + Children(work[0]));
    }
  }

  /** `populateTypeBounds` only narrows: a class-typed maximum becomes a subclass of itself,
    * and every new or changed maximum is a plain class other than `java/lang/Object`. */
  lemma {:induction false} TightenStatsNarrows(classes: map<string, StructClass>, rank: map<string, nat>,
                                               max: map<VarVersionPair, VarType>, stack: seq<Statement>)
    requires Ranked(classes, rank)
    ensures Narrowed(classes, rank, max, TightenStats(classes, rank, max, stack))
    decreases SizeAll(stack)
  {
    if |stack| == 0 {
      NarrowedRefl(classes, rank, max);
    } else {
      var st := stack[0];
      var m := if st.exprents.Some? then TightenAll(classes, rank, max, st.exprents.value) else max;
      if st.exprents.Some? {
        TightenAllNarrows(classes, rank, max, st.exprents.value);
      } else {
        NarrowedRefl(classes, rank, max);
      }
      SizeAllAppend(stack[1..], st.stats);
      TightenStatsNarrows(classes, rank, m, stack[1..] + st.stats);
      NarrowedTrans(classes, rank, max, m, TightenStats(classes, rank, max, stack));
    }
  }
}
