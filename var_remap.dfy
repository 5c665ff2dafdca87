/**
 * `remapVar`: renames every occurrence of the version `from` to the version `to`, with the
 * type the two merge to, and reports whether anything was renamed.
 *
 * The source edits the nodes in place while walking each expression's descendants; the
 * edits of different nodes do not depend on each other, so the model rebuilds the tree.
 * The merged type is computed once per remap from the bounds as they are before it.
 */
module VarRemap {
  import opened Wrappers
  import opened Exprents
  import opened Statements
  import opened VarMerge

  /** `e` with its children replaced, in order, by `cs`. */
  function WithChildren(e: Exprent, cs: seq<Exprent>): (r: Exprent)
    requires |cs| == |Children(e)|
    ensures Children(r) == cs
    ensures r.Var? <==> e.Var?
    ensures e.Var? || e.Const? ==> r == e
  {
    match e
    case Var(_, _, _, _) => e
    case Const(_, _) => e
    case Assignment(_, _) => Assignment(cs[0], cs[1])
    case Function(t, _) => Function(t, cs)
    case Invocation(inst, c, _) =>
      if inst.Some? then Invocation(Some(cs[0]), c, cs[1..]) else Invocation(None, c, cs)
    case Field(inst, c) => Field(if inst.Some? then Some(cs[0]) else None, c)
    case Exit(t, v, rt) => Exit(t, if v.Some? then Some(cs[0]) else None, rt)
    case Other(t, _) => Other(t, cs)
  }

  /** Whether a node's variables are those of its children. */
  lemma HasVarOfChildren(e: Exprent, p: VarVersionPair)
    requires !e.Var?
    ensures HasVar(e, p) <==> exists k :: 0 <= k < |Children(e)| && HasVar(Children(e)[k], p)
  {
  }

  /** `remapVar(exprent, from, to)` when the merged type is `m`: a variable `from` becomes
    * `to`, of type `m`, and is no longer a definition; an assignment of a constant other than
    * `null` to `from` or `to` gets the constant retyped to `m`.  After it no `from` is left,
    * `to` occurs exactly where `from` or `to` did, and every other variable is where it was. */
  function RemapExprent(e: Exprent, from: VarVersionPair, to: VarVersionPair, m: VarType): (r: Exprent)
    ensures from != to ==> !HasVar(r, from)
    ensures HasVar(r, to) <==> HasVar(e, to) || HasVar(e, from)
    ensures forall p :: p != from && p != to ==> (HasVar(r, p) <==> HasVar(e, p))
    ensures e.Var? && e.Pair() == from ==> r == Var(to.index, to.version, false, m)
    ensures e.Var? && e.Pair() != from ==> r == e
    decreases e, 1
  {
    if e.Var? then
      if e.Pair() == from then Var(to.index, to.version, false, m) else e
    else
      var cs := RemapAll(Children(e), from, to, m, e);
      var rebuilt := WithChildren(e, cs);
      assert forall k :: 0 <= k < |cs| ==> RemapsVars(Children(e)[k], cs[k], from, to);
      RebuiltRemapsVars(e, cs, from, to);
      if e.Assignment? && e.left.Var? && e.right.Const? && (e.left.Pair() == from || e.left.Pair() == to)
         && e.right.constType != VARTYPE_NULL then
        RetypeKeepsVars(rebuilt, m, e.right.value);
        Assignment(rebuilt.left, Const(m, e.right.value))
      else rebuilt
  }

  /** `r` is `e` with `from` renamed to `to`, as far as the variables are concerned. */
  ghost predicate RemapsVars(e: Exprent, r: Exprent, from: VarVersionPair, to: VarVersionPair)
  {
    (from != to ==> !HasVar(r, from))
    && (HasVar(r, to) <==> HasVar(e, to) || HasVar(e, from))
    && (forall p :: p != from && p != to ==> (HasVar(r, p) <==> HasVar(e, p)))
  }

  /** Rebuilding a node from renamed children renames the node. */
  lemma RebuiltRemapsVars(e: Exprent, cs: seq<Exprent>, from: VarVersionPair, to: VarVersionPair)
    requires !e.Var? && |cs| == |Children(e)|
    requires forall k :: 0 <= k < |cs| ==> RemapsVars(Children(e)[k], cs[k], from, to)
    ensures RemapsVars(e, WithChildren(e, cs), from, to)
  {
    RebuiltHasTo(e, cs, from, to);
    if from != to {
      RebuiltLacksFrom(e, cs, from, to);
    }
    forall p | p != from && p != to
      ensures HasVar(WithChildren(e, cs), p) <==> HasVar(e, p)
    {
      RebuiltHasOther(e, cs, from, to, p);
    }
  }

  lemma RebuiltLacksFrom(e: Exprent, cs: seq<Exprent>, from: VarVersionPair, to: VarVersionPair)
    requires !e.Var? && |cs| == |Children(e)| && from != to
    requires forall k :: 0 <= k < |cs| ==> RemapsVars(Children(e)[k], cs[k], from, to)
    ensures !HasVar(WithChildren(e, cs), from)
  {
    var rebuilt := WithChildren(e, cs);
    HasVarOfChildren(rebuilt, from);
    forall k | 0 <= k < |cs|
      ensures !HasVar(cs[k], from)
    {
      assert RemapsVars(Children(e)[k], cs[k], from, to);
    }
  }

  lemma RebuiltHasTo(e: Exprent, cs: seq<Exprent>, from: VarVersionPair, to: VarVersionPair)
    requires !e.Var? && |cs| == |Children(e)|
    requires forall k :: 0 <= k < |cs| ==> RemapsVars(Children(e)[k], cs[k], from, to)
    ensures HasVar(WithChildren(e, cs), to) <==> HasVar(e, to) || HasVar(e, from)
  {
    var rebuilt, ch := WithChildren(e, cs), Children(e);
    HasVarOfChildren(rebuilt, to);
    HasVarOfChildren(e, to);
    HasVarOfChildren(e, from);
    if HasVar(rebuilt, to) {
      var k :| 0 <= k < |cs| && HasVar(cs[k], to);
      assert RemapsVars(ch[k], cs[k], from, to);
      assert HasVar(ch[k], to) || HasVar(ch[k], from);
    }
    if HasVar(e, to) {
      var k :| 0 <= k < |ch| && HasVar(ch[k], to);
      assert RemapsVars(ch[k], cs[k], from, to);
      assert HasVar(cs[k], to);
    }
    if HasVar(e, from) {
      var k :| 0 <= k < |ch| && HasVar(ch[k], from);
      assert RemapsVars(ch[k], cs[k], from, to);
      assert HasVar(cs[k], to);
    }
  }

  lemma RebuiltHasOther(e: Exprent, cs: seq<Exprent>, from: VarVersionPair, to: VarVersionPair, p: VarVersionPair)
    requires !e.Var? && |cs| == |Children(e)| && p != from && p != to
    requires forall k :: 0 <= k < |cs| ==> RemapsVars(Children(e)[k], cs[k], from, to)
    ensures HasVar(WithChildren(e, cs), p) <==> HasVar(e, p)
  {
    var rebuilt, ch := WithChildren(e, cs), Children(e);
    HasVarOfChildren(rebuilt, p);
    HasVarOfChildren(e, p);
    if HasVar(rebuilt, p) {
      var k :| 0 <= k < |cs| && HasVar(cs[k], p);
      assert RemapsVars(ch[k], cs[k], from, to);
      assert HasVar(ch[k], p);
    }
    if HasVar(e, p) {
      var k :| 0 <= k < |ch| && HasVar(ch[k], p);
      assert RemapsVars(ch[k], cs[k], from, to);
      assert HasVar(cs[k], p);
    }
  }

  /** An assignment's variables are those of its two sides. */
  lemma HasVarAssignment(l: Exprent, r: Exprent, p: VarVersionPair)
    ensures HasVar(Assignment(l, r), p) <==> HasVar(l, p) || HasVar(r, p)
  {
    var a := Assignment(l, r);
    assert Children(a) == [l, r];
    if HasVar(l, p) {
      assert Children(a)[0] == l;
    }
    if HasVar(r, p) {
      assert Children(a)[1] == r;
    }
  }

  /** Retyping the constant of an assignment changes no variable. */
  lemma RetypeKeepsVars(a: Exprent, m: VarType, v: int)
    requires a.Assignment? && a.right.Const?
    ensures forall p :: HasVar(Assignment(a.left, Const(m, v)), p) <==> HasVar(a, p)
  {
    forall p
      ensures HasVar(Assignment(a.left, Const(m, v)), p) <==> HasVar(a, p)
    {
      HasVarAssignment(a.left, a.right, p);
      HasVarAssignment(a.left, Const(m, v), p);
      assert Children(a.right) == [] && Children(Const(m, v)) == [];
    }
  }

  /** The children of `parent`, each remapped. */
  function RemapAll(cs: seq<Exprent>, from: VarVersionPair, to: VarVersionPair, m: VarType, ghost parent: Exprent): (r: seq<Exprent>)
    requires forall k :: 0 <= k < |cs| ==> cs[k] < parent
    ensures |r| == |cs|
    ensures forall k :: 0 <= k < |cs| ==> r[k] == RemapExprent(cs[k], from, to, m)
    decreases parent, 0, |cs|
  {
    if |cs| == 0 then []
    else [RemapExprent(cs[0], from, to, m)] + RemapAll(cs[1..], from, to, m, parent)
  }

  // ---------------------------------------------------------------------------------------
  // remapVar(stat, from, to)

  /** A basic block's list after the remap: every expression remapped, and a bare variable
    * `from` removed (once renamed it is a plain read of `to` with no effect). */
  function RemapList(exps: seq<Exprent>, from: VarVersionPair, to: VarVersionPair, m: VarType): (r: seq<Exprent>)
    ensures |r| <= |exps|
  {
    if |exps| == 0 then []
    else
      var e := exps[0];
      (if e.Var? && e.Pair() == from then [] else [RemapExprent(e, from, to, m)]) + RemapList(exps[1..], from, to, m)
  }

  /** Some expression of the list holds `p`. */
  predicate AnyHas(exps: seq<Exprent>, p: VarVersionPair)
  {
    |exps| > 0 && (HasVar(exps[0], p) || AnyHas(exps[1..], p))
  }

  lemma {:induction false} AnyHasMeans(exps: seq<Exprent>, p: VarVersionPair)
    ensures AnyHas(exps, p) <==> exists k :: 0 <= k < |exps| && HasVar(exps[k], p)
  {
    if |exps| > 0 {
      AnyHasMeans(exps[1..], p);
      if exists k :: 0 <= k < |exps| && HasVar(exps[k], p) {
        var k :| 0 <= k < |exps| && HasVar(exps[k], p);
        if k > 0 {
          assert exps[1..][k - 1] == exps[k];
        }
      }
    }
  }

  lemma {:induction false} RemapListFree(exps: seq<Exprent>, from: VarVersionPair, to: VarVersionPair, m: VarType)
    requires from != to
    ensures !AnyHas(RemapList(exps, from, to, m), from)
  {
    if |exps| > 0 {
      var e := exps[0];
      var head := if e.Var? && e.Pair() == from then [] else [RemapExprent(e, from, to, m)];
      var rest := RemapList(exps[1..], from, to, m);
      RemapListFree(exps[1..], from, to, m);
      AnyHasMeans(rest, from);
      AnyHasMeans(head + rest, from);
      forall k | 0 <= k < |head + rest|
        ensures !HasVar((head + rest)[k], from)
      {
        if k >= |head| {
          assert (head + rest)[k] == rest[k - |head|];
        }
      }
    }
  }

  lemma RemapListStep(exps: seq<Exprent>, k: nat, from: VarVersionPair, to: VarVersionPair, m: VarType)
    requires k < |exps|
    ensures RemapList(exps[k..], from, to, m) ==
      (if exps[k].Var? && exps[k].Pair() == from then [] else [RemapExprent(exps[k], from, to, m)]) +
      RemapList(exps[k + 1..], from, to, m)
  {
    assert exps[k..][1..] == exps[k + 1..];
  }

  lemma AnyHasSnoc(exps: seq<Exprent>, k: nat, p: VarVersionPair)
    requires k < |exps|
    ensures AnyHas(exps[..k + 1], p) <==> AnyHas(exps[..k], p) || HasVar(exps[k], p)
  {
    AnyHasMeans(exps[..k + 1], p);
    AnyHasMeans(exps[..k], p);
    assert exps[..k + 1][k] == exps[k];
    if AnyHas(exps[..k], p) {
      var i :| 0 <= i < k && HasVar(exps[..k][i], p);
      assert exps[..k + 1][i] == exps[..k][i];
    }
    if AnyHas(exps[..k + 1], p) {
      var i :| 0 <= i < k + 1 && HasVar(exps[..k + 1][i], p);
      if i < k {
        assert exps[..k][i] == exps[..k + 1][i];
      }
    }
  }

  /** The state of the list loop: the first `x` entries are done, the rest are the
    * original entries from `k` on. */
  ghost predicate ListLoop(exps: seq<Exprent>, lst: seq<Exprent>, x: int, k: nat,
                           from: VarVersionPair, to: VarVersionPair, m: VarType)
  {
    0 <= x <= |lst| && k <= |exps| && lst[x..] == exps[k..] &&
    lst[..x] + RemapList(exps[k..], from, to, m) == RemapList(exps, from, to, m)
  }

  lemma DropStep(exps: seq<Exprent>, lst: seq<Exprent>, x: int, k: nat, from: VarVersionPair, to: VarVersionPair, m: VarType)
    requires ListLoop(exps, lst, x, k, from, to, m) && x < |lst|
    requires lst[x].Var? && lst[x].Pair() == from
    ensures ListLoop(exps, lst[..x] + lst[x + 1..], x, k + 1, from, to, m)
  {
    assert lst[x] == exps[k];
    RemapListStep(exps, k, from, to, m);
    var lst' := lst[..x] + lst[x + 1..];
    assert lst'[..x] == lst[..x];
    assert lst'[x..] == lst[x + 1..] == exps[k + 1..];
  }

  lemma KeepStep(exps: seq<Exprent>, lst: seq<Exprent>, x: int, k: nat, from: VarVersionPair, to: VarVersionPair, m: VarType)
    requires ListLoop(exps, lst, x, k, from, to, m) && x < |lst|
    requires !(lst[x].Var? && lst[x].Pair() == from)
    ensures ListLoop(exps, lst[x := RemapExprent(lst[x], from, to, m)], x + 1, k + 1, from, to, m)
  {
    TailStep(lst, exps, x, k);
    RemapListStep(exps, k, from, to, m);
    KeepSplit(lst, exps, x, k, RemapExprent(lst[x], from, to, m), RemapList(exps[k..], from, to, m),
              RemapList(exps[k + 1..], from, to, m), RemapList(exps, from, to, m));
  }

  /** The list algebra of one kept entry: the prefix grows by the new entry, the tail shrinks. */
  lemma KeepSplit<T>(lst: seq<T>, exps: seq<T>, x: nat, k: nat, e: T, restk: seq<T>, rest: seq<T>, whole: seq<T>)
    requires x < |lst| && k < |exps| && lst[x + 1..] == exps[k + 1..]
    requires lst[..x] + restk == whole && restk == [e] + rest
    ensures lst[x := e][x + 1..] == exps[k + 1..] && lst[x := e][..x + 1] + rest == whole
  {
    UpdateSplit(lst, x, e);
    assert lst[..x] + [e] + rest == lst[..x] + ([e] + rest);
  }

  /** The loop's untouched tail, one step on. */
  lemma TailStep<T>(lst: seq<T>, exps: seq<T>, x: nat, k: nat)
    requires x < |lst| && k <= |exps| && lst[x..] == exps[k..]
    ensures k < |exps| && lst[x] == exps[k] && lst[x + 1..] == exps[k + 1..]
  {
    assert lst[x] == lst[x..][0];
    assert lst[x + 1..] == lst[x..][1..];
    assert exps[k + 1..] == exps[k..][1..];
  }

  /** Replacing entry `x` splits the list at `x` into the old prefix and the new entry. */
  lemma UpdateSplit<T>(lst: seq<T>, x: nat, e: T)
    requires x < |lst|
    ensures lst[x := e][..x + 1] == lst[..x] + [e]
    ensures lst[x := e][x + 1..] == lst[x + 1..]
  {
  }

  /** One pass of the list loop at index `x`: the entry is remapped; a renamed bare variable
    * is no longer a definition and is removed, the index staying where it is. */
  method RemapListEntry(exps: seq<Exprent>, lst: seq<Exprent>, x: nat, ghost k: nat,
                        from: VarVersionPair, to: VarVersionPair, m: VarType)
    returns (lst': seq<Exprent>, x': nat, hit: bool)
    requires x < |lst| && ListLoop(exps, lst, x, k, from, to, m)
    ensures k < |exps| && hit == HasVar(exps[k], from)
    ensures ListLoop(exps, lst', x', k + 1, from, to, m) && |lst'| - x' == |lst| - x - 1
  {
    TailStep(lst, exps, x, k);
    var exp := lst[x];
    var exp', h := RemapExprentWalk(exp, from, to, m);
    hit := h;
    if hit && exp.Var? {
      // renamed, so no longer a definition: the source removes it and steps back
      DropStep(exps, lst, x, k, from, to, m);
      lst', x' := lst[..x] + lst[x + 1..], x;
    } else {
      KeepStep(exps, lst, x, k, from, to, m);
      lst', x' := lst[x := exp'], x + 1;
    }
  }

  /** The loop over a basic block's list: a remapped bare variable is removed and the index
    * stepped back, as the source does. */
  method RemapExprentList(exps: seq<Exprent>, from: VarVersionPair, to: VarVersionPair, m: VarType)
    returns (lst: seq<Exprent>, remapped: bool)
    ensures lst == RemapList(exps, from, to, m)
    ensures remapped == AnyHas(exps, from)
  {
    lst := exps;
    remapped := false;
    var x: nat := 0;
    ghost var k: nat := 0;
    while x < |lst|
      invariant ListLoop(exps, lst, x, k, from, to, m)
      invariant remapped == AnyHas(exps[..k], from)
      decreases |lst| - x
    {
      var hit;
      ghost var k0 := k;
      lst, x, hit := RemapListEntry(exps, lst, x, k, from, to, m);
      AnyHasSnoc(exps, k0, from);
      if hit {
        remapped := true;
      }
      k := k + 1;
    }
    assert exps[..k] == exps;
  }

  /** `remapVar(exprent, from, to)`: the walk over the expression's descendants and then the
    * expression itself, which reports whether a variable was renamed. */
  method RemapExprentWalk(e: Exprent, from: VarVersionPair, to: VarVersionPair, m: VarType)
    returns (r: Exprent, remapped: bool)
    ensures r == RemapExprent(e, from, to, m)
    ensures remapped == HasVar(e, from)
  {
    var lst := GetAllExprents(e, true);
    lst := lst + [e];
    remapped := false;
    var x := 0;
    while x < |lst|
      invariant x <= |lst| && lst == Desc(e) + [e]
      invariant remapped <==> exists k :: 0 <= k < x && lst[k].Var? && lst[k].Pair() == from
    {
      if lst[x].Var? && lst[x].Pair() == from {
        remapped := true;
      }
      x := x + 1;
    }
    HasVarIsInSubtree(e, from);
    if InSubtree(e, from) && !(e.Var? && e.Pair() == from) {
      var d :| d in Desc(e) && d.Var? && d.Pair() == from;
      var k :| 0 <= k < |Desc(e)| && Desc(e)[k] == d;
      assert lst[k] == d;
    }
    assert lst[|lst| - 1] == e;
    r := RemapExprent(e, from, to, m);
  }

  // ---------------------------------------------------------------------------------------
  // remapVar(stat, from, to)

  /** Each expression remapped. */
  function RemapEach(exps: seq<Exprent>, from: VarVersionPair, to: VarVersionPair, m: VarType): (r: seq<Exprent>)
    ensures |r| == |exps|
    ensures forall k :: 0 <= k < |exps| ==> r[k] == RemapExprent(exps[k], from, to, m)
  {
    if |exps| == 0 then [] else [RemapExprent(exps[0], from, to, m)] + RemapEach(exps[1..], from, to, m)
  }

  lemma {:induction false} RemapEachAppend(a: seq<Exprent>, b: seq<Exprent>, from: VarVersionPair, to: VarVersionPair, m: VarType)
    ensures RemapEach(a + b, from, to, m) == RemapEach(a, from, to, m) + RemapEach(b, from, to, m)
  {
  }

  function RemapOption(o: Option<Exprent>, from: VarVersionPair, to: VarVersionPair, m: VarType): (r: Option<Exprent>)
    ensures OptionList(r) == RemapEach(OptionList(o), from, to, m)
  {
    if o.Some? then Some(RemapExprent(o.value, from, to, m)) else None
  }

  /** The kind with the expressions it contributes to `getSequentialObjects()` remapped,
    * which is what remapping those objects in place does; its other expressions (a `while`
    * loop's init and increment, catch variables, a finally monitor) are left alone. */
  function RemapKind(k: Kind, from: VarVersionPair, to: VarVersionPair, m: VarType): (r: Kind)
  {
    match k
    case If(head, isIfElse) => If(RemapOption(head, from, to, m), isIfElse)
    case Switch(head) => Switch(RemapOption(head, from, to, m))
    case Synchronized(head) => Synchronized(RemapOption(head, from, to, m))
    case Do(loop, init, cond, inc) =>
      if loop == LoopFor then Do(loop, RemapOption(init, from, to, m), RemapOption(cond, from, to, m), RemapOption(inc, from, to, m))
      else if loop == LoopWhile || loop == LoopDoWhile then Do(loop, init, RemapOption(cond, from, to, m), inc)
      else if loop == LoopForEach then Do(loop, RemapOption(init, from, to, m), cond, RemapOption(inc, from, to, m))
      else k
    case TryCatch(hasResources, resources, vars) => TryCatch(hasResources, RemapEach(resources, from, to, m), vars)
    case _ => k
  }

  /** The remapped kind's objects are the old kind's objects, remapped. */
  lemma RemapKindExprs(k: Kind, from: VarVersionPair, to: VarVersionPair, m: VarType)
    ensures ObjExprs(RemapKind(k, from, to, m)) == RemapEach(ObjExprs(k), from, to, m)
  {
    if k.Do? && k.loopType == LoopFor {
      var a, b, c := OptionList(k.init), OptionList(k.cond), OptionList(k.inc);
      RemapEachAppend(a + b, c, from, to, m);
      RemapEachAppend(a, b, from, to, m);
    } else if k.Do? && k.loopType == LoopForEach {
      RemapEachAppend(OptionList(k.init), OptionList(k.inc), from, to, m);
    }
  }

  /** The definitions list after a successful remap: the definition of `from` is removed and
    * the definition of `to` gets the merged type. */
  function FixDefs(defs: seq<Exprent>, from: VarVersionPair, to: VarVersionPair, m: VarType): (r: seq<Exprent>)
    ensures |r| <= |defs|
  {
    if |defs| == 0 then []
    else
      var d := defs[0];
      (if d.Var? && d.Pair() == from then []
       else if d.Var? && d.Pair() == to then [d.(varType := m)]
       else [d]) + FixDefs(defs[1..], from, to, m)
  }

  /** After the fix-up no definition of `from` is left, every definition of `to` has the
    * merged type, and every other definition is kept. */
  lemma {:induction false} FixDefsMeans(defs: seq<Exprent>, from: VarVersionPair, to: VarVersionPair, m: VarType)
    requires from != to
    ensures var r := FixDefs(defs, from, to, m);
      (forall d :: d in r ==> !(d.Var? && d.Pair() == from)) &&
      (forall d :: d in r && d.Var? && d.Pair() == to ==> d.varType == m) &&
      (forall d :: d in defs && !(d.Var? && (d.Pair() == from || d.Pair() == to)) ==> d in r) &&
      (forall d :: d in r && !(d.Var? && d.Pair() == to) ==> d in defs)
  {
    if |defs| > 0 {
      FixDefsMeans(defs[1..], from, to, m);
      assert forall x :: x in defs ==> x == defs[0] || x in defs[1..];
    }
  }

  lemma FixDefsStep(defs: seq<Exprent>, x: nat, from: VarVersionPair, to: VarVersionPair, m: VarType)
    requires x < |defs|
    ensures FixDefs(defs[x..], from, to, m) ==
      (if defs[x].Var? && defs[x].Pair() == from then []
       else if defs[x].Var? && defs[x].Pair() == to then [defs[x].(varType := m)]
       else [defs[x]]) + FixDefs(defs[x + 1..], from, to, m)
  {
    assert defs[x..][1..] == defs[x + 1..];
  }

  /** The iterator loop over `getVarDefinitions()`. */
  method FixVarDefinitions(defs: seq<Exprent>, from: VarVersionPair, to: VarVersionPair, m: VarType)
    returns (r: seq<Exprent>)
    ensures r == FixDefs(defs, from, to, m)
  {
    r := [];
    var x := 0;
    while x < |defs|
      invariant x <= |defs|
      invariant r + FixDefs(defs[x..], from, to, m) == FixDefs(defs, from, to, m)
    {
      var d := defs[x];
      FixDefsStep(defs, x, from, to, m);
      var item: seq<Exprent>;
      if d.Var? && d.Pair() == from {
        item := [];
      } else if d.Var? && d.Pair() == to {
        item := [d.(varType := m)];
      } else {
        item := [d];
      }
      ConcatAssoc(r, item, FixDefs(defs[x + 1..], from, to, m));
      r := r + item;
      x := x + 1;
    }
  }

  /** A remap's answer: the tree after it and whether a variable was renamed. */
  datatype Remapped = Remapped(tree: Statement, success: bool)

  /** `remapVar(stat, from, to)` when the merged type is `m`: a basic block's list goes
    * through the list loop; a compound statement's children are remapped and so are the
    * expressions among its sequential objects.  When something was renamed, the
    * statement's definitions are fixed up. */
  function RemapStat(s: Statement, from: VarVersionPair, to: VarVersionPair, m: VarType): (r: Remapped)
    requires from != to
    ensures r.tree.id == s.id && |r.tree.stats| == |s.stats| && r.tree.exprents.Some? == s.exprents.Some?
    decreases s, 1
  {
    var body :=
      if s.exprents.Some? then
        Remapped(s.(exprents := Some(RemapList(s.exprents.value, from, to, m))), AnyHas(s.exprents.value, from))
      else
        Remapped(s.(kind := RemapKind(s.kind, from, to, m), stats := RemapChildren(s, |s.stats|, from, to, m)),
                 ChildSucceeds(s, |s.stats|, from, to, m) || AnyHas(ObjExprs(s.kind), from));
    if body.success then Remapped(body.tree.(varDefs := FixDefs(s.varDefs, from, to, m)), true) else body
  }

  /** The first `n` children, remapped. */
  function RemapChildren(s: Statement, n: nat, from: VarVersionPair, to: VarVersionPair, m: VarType): (r: seq<Statement>)
    requires from != to && n <= |s.stats|
    ensures |r| == n
    ensures forall k :: 0 <= k < n ==> r[k] == RemapStat(s.stats[k], from, to, m).tree
    decreases s, 0, n
  {
    if n == 0 then []
    else
      var prev := RemapChildren(s, n - 1, from, to, m);
      var last := RemapStat(s.stats[n - 1], from, to, m).tree;
      SnocIndex(prev, last);
      prev + [last]
  }

  lemma SnocIndex<T>(a: seq<T>, x: T)
    ensures forall k :: 0 <= k < |a| ==> (a + [x])[k] == a[k]
    ensures (a + [x])[|a|] == x
  {
  }

  /** One of the first `n` children had a variable renamed. */
  predicate ChildSucceeds(s: Statement, n: nat, from: VarVersionPair, to: VarVersionPair, m: VarType)
    requires from != to && n <= |s.stats|
    decreases s, 0, n
  {
    n > 0 && (ChildSucceeds(s, n - 1, from, to, m) || RemapStat(s.stats[n - 1], from, to, m).success)
  }

  /** `remapVar(stat, from, to)`: a basic block's list loop, or the loop over the
    * sequential objects, then the definitions when something was renamed. */
  method RemapStatement(s: Statement, from: VarVersionPair, to: VarVersionPair, m: VarType)
    returns (tree: Statement, success: bool)
    requires from != to
    ensures Remapped(tree, success) == RemapStat(s, from, to, m)
    decreases s, 2
  {
    if s.exprents.Some? {
      var lst;
      lst, success := RemapExprentList(s.exprents.value, from, to, m);
      tree := s.(exprents := Some(lst));
    } else {
      var stats;
      stats, success := RemapObjects(s, from, to, m);
      tree := s.(kind := RemapKind(s.kind, from, to, m), stats := stats);
    }
    if success {
      var defs := FixVarDefinitions(s.varDefs, from, to, m);
      tree := tree.(varDefs := defs);
    }
  }

  /** The loop over a compound statement's sequential objects: each statement is remapped
    * (and replaced among the children), each expression walked. */
  method RemapObjects(s: Statement, from: VarVersionPair, to: VarVersionPair, m: VarType)
    returns (stats: seq<Statement>, success: bool)
    requires from != to && s.exprents.None?
    ensures stats == RemapChildren(s, |s.stats|, from, to, m)
    ensures success == (ChildSucceeds(s, |s.stats|, from, to, m) || AnyHas(ObjExprs(s.kind), from))
    decreases s, 1
  {
    var objs := SequentialObjects(s);
    SequentialStats(s);
    stats := s.stats;
    success := false;
    var i: nat, j: nat := 0, 0;
    while i < |objs|
      invariant i <= |objs| && j <= |s.stats| && |stats| == |s.stats|
      invariant StatsOf(objs[i..]) == s.stats[j..]
      invariant stats[..j] == RemapChildren(s, j, from, to, m) && stats[j..] == s.stats[j..]
      invariant success == (ChildSucceeds(s, j, from, to, m) || AnyHas(ExprsOf(objs[..i]), from))
    {
      stats, success, j := RemapObject(s, i, j, stats, success, from, to, m);
      i := i + 1;
    }
    assert objs[..i] == objs;
    SequentialExprs(s);
    assert stats == stats[..j];
  }

  /** One object of the loop. */
  method RemapObject(s: Statement, i: nat, j: nat, stats: seq<Statement>, success: bool,
                     from: VarVersionPair, to: VarVersionPair, m: VarType)
    returns (stats': seq<Statement>, success': bool, j': nat)
    requires from != to && s.exprents.None?
    requires i < |SequentialObjects(s)| && j <= |s.stats| && |stats| == |s.stats|
    requires StatsOf(SequentialObjects(s)[i..]) == s.stats[j..]
    requires stats[..j] == RemapChildren(s, j, from, to, m) && stats[j..] == s.stats[j..]
    requires success == (ChildSucceeds(s, j, from, to, m) || AnyHas(ExprsOf(SequentialObjects(s)[..i]), from))
    ensures j' <= |s.stats| && |stats'| == |s.stats|
    ensures StatsOf(SequentialObjects(s)[i + 1..]) == s.stats[j'..]
    ensures stats'[..j'] == RemapChildren(s, j', from, to, m) && stats'[j'..] == s.stats[j'..]
    ensures success' == (ChildSucceeds(s, j', from, to, m) || AnyHas(ExprsOf(SequentialObjects(s)[..i + 1]), from))
    decreases s, 0
  {
    var objs := SequentialObjects(s);
    ObjExprsStep(objs, i, from);
    stats', success', j' := stats, success, j;
    match objs[i] {
      case StatObj(c) =>
        ObjStatHead(objs, i, s.stats, j);
        var sub, hit := RemapStatement(c, from, to, m);
        ChildStep(s, j, stats, from, to, m);
        stats' := stats[j := sub];
        success' := success || hit;
        j' := j + 1;
      case ExprObj(e) =>
        StatsOfStep(objs, i);
        var e', hit := RemapExprentWalk(e, from, to, m);
        success' := success || hit;
      case NullObj =>
        StatsOfStep(objs, i);
    }
  }

  /** Remapping child `j` extends the remapped prefix by one. */
  lemma ChildStep(s: Statement, j: nat, stats: seq<Statement>, from: VarVersionPair, to: VarVersionPair, m: VarType)
    requires from != to && j < |s.stats| && |stats| == |s.stats|
    requires stats[..j] == RemapChildren(s, j, from, to, m) && stats[j..] == s.stats[j..]
    ensures var st := stats[j := RemapStat(s.stats[j], from, to, m).tree];
            st[..j + 1] == RemapChildren(s, j + 1, from, to, m) && st[j + 1..] == s.stats[j + 1..]
    ensures ChildSucceeds(s, j + 1, from, to, m) == (ChildSucceeds(s, j, from, to, m) || RemapStat(s.stats[j], from, to, m).success)
  {
    var st := stats[j := RemapStat(s.stats[j], from, to, m).tree];
    assert st[..j + 1] == stats[..j] + [RemapStat(s.stats[j], from, to, m).tree];
    assert st[j + 1..] == stats[j + 1..] == stats[j..][1..];
  }

  /** The expressions of the objects up to `i`, one object on. */
  lemma ObjExprsStep(objs: seq<Obj>, i: nat, p: VarVersionPair)
    requires i < |objs|
    ensures AnyHas(ExprsOf(objs[..i + 1]), p) ==
            (AnyHas(ExprsOf(objs[..i]), p) || (objs[i].ExprObj? && HasVar(objs[i].expr, p)))
  {
    ExprsOfSnoc(objs, i);
    AnyHasAppend(ExprsOf(objs[..i]), ExprsOf([objs[i]]), p);
    assert [objs[i]][1..] == [];
  }

  lemma ExprsOfSnoc(objs: seq<Obj>, i: nat)
    requires i < |objs|
    ensures ExprsOf(objs[..i + 1]) == ExprsOf(objs[..i]) + ExprsOf([objs[i]])
  {
    assert objs[..i + 1] == objs[..i] + [objs[i]];
    ExprsOfAppend(objs[..i], [objs[i]]);
  }

  lemma {:induction false} AnyHasAppend(a: seq<Exprent>, b: seq<Exprent>, p: VarVersionPair)
    ensures AnyHas(a + b, p) <==> AnyHas(a, p) || AnyHas(b, p)
  {
    if |a| > 0 {
      assert (a + b)[1..] == a[1..] + b;
      AnyHasAppend(a[1..], b, p);
    } else {
      assert a + b == b;
    }
  }

  // ---------------------------------------------------------------------------------------
  // What a remap leaves behind

  /** No expression of the statement or of a statement below it holds `p` (a basic block,
    * the one kind with an expression list, has no statements below it). */
  ghost predicate FreeOf(s: Statement, p: VarVersionPair)
  {
    !AnyHas(OwnExprents(s), p) &&
    (s.exprents.None? ==> forall k :: 0 <= k < |s.stats| ==> FreeOf(s.stats[k], p))
  }

  lemma {:induction false} AnyHasRemapEach(exps: seq<Exprent>, from: VarVersionPair, to: VarVersionPair, m: VarType, p: VarVersionPair)
    ensures p == from && from != to ==> !AnyHas(RemapEach(exps, from, to, m), p)
    ensures p != from && p != to ==> (AnyHas(RemapEach(exps, from, to, m), p) <==> AnyHas(exps, p))
  {
    if |exps| > 0 {
      assert RemapEach(exps, from, to, m)[1..] == RemapEach(exps[1..], from, to, m);
      AnyHasRemapEach(exps[1..], from, to, m, p);
    }
  }

  lemma {:induction false} AnyHasRemapList(exps: seq<Exprent>, from: VarVersionPair, to: VarVersionPair, m: VarType, p: VarVersionPair)
    requires p != from && p != to
    ensures AnyHas(RemapList(exps, from, to, m), p) <==> AnyHas(exps, p)
  {
    if |exps| > 0 {
      var e := exps[0];
      var head := if e.Var? && e.Pair() == from then [] else [RemapExprent(e, from, to, m)];
      AnyHasRemapList(exps[1..], from, to, m, p);
      AnyHasAppend(head, RemapList(exps[1..], from, to, m), p);
    }
  }

  /** The expressions a compound statement owns are its kind's. */
  lemma CompoundExprents(s: Statement)
    requires s.exprents.None?
    ensures OwnExprents(s) == ObjExprs(s.kind)
  {
    SequentialExprs(s);
  }

  /** Some of the first `n` children holds `p`. */
  lemma ChildSucceedsMeans(s: Statement, n: nat, from: VarVersionPair, to: VarVersionPair, m: VarType)
    requires from != to && n <= |s.stats|
    ensures ChildSucceeds(s, n, from, to, m) <==> exists k :: 0 <= k < n && !FreeOf(s.stats[k], from)
    decreases s, 0, n, 2
  {
    ChildSucceedsUses(s, n, from, to, m);
    SomeChildUsesMeans(s, n, from);
  }

  /** One of the first `n` children holds `p`, child by child. */
  ghost predicate SomeChildUses(s: Statement, n: nat, p: VarVersionPair)
    requires n <= |s.stats|
  {
    n > 0 && (SomeChildUses(s, n - 1, p) || !FreeOf(s.stats[n - 1], p))
  }

  lemma {:induction false} ChildSucceedsUses(s: Statement, n: nat, from: VarVersionPair, to: VarVersionPair, m: VarType)
    requires from != to && n <= |s.stats|
    ensures ChildSucceeds(s, n, from, to, m) == SomeChildUses(s, n, from)
    decreases s, 0, n, 1
  {
    if n > 0 {
      ChildSucceedsStep(s, n, from, to, m);
      ChildSucceedsUses(s, n - 1, from, to, m);
    }
  }

  lemma {:induction false} SomeChildUsesMeans(s: Statement, n: nat, p: VarVersionPair)
    requires n <= |s.stats|
    ensures SomeChildUses(s, n, p) <==> exists k :: 0 <= k < n && !FreeOf(s.stats[k], p)
  {
    if n > 0 {
      SomeChildUsesMeans(s, n - 1, p);
      SomeChildStep(s, n, p);
    }
  }

  lemma ChildSucceedsStep(s: Statement, n: nat, from: VarVersionPair, to: VarVersionPair, m: VarType)
    requires from != to && 0 < n <= |s.stats|
    ensures ChildSucceeds(s, n, from, to, m) <==> ChildSucceeds(s, n - 1, from, to, m) || !FreeOf(s.stats[n - 1], from)
    decreases s, 0, n, 0
  {
    assert ChildSucceeds(s, n, from, to, m) ==
      (ChildSucceeds(s, n - 1, from, to, m) || RemapStat(s.stats[n - 1], from, to, m).success);
    RemapOccurrences(s.stats[n - 1], from, to, m);
  }

  lemma SomeChildStep(s: Statement, n: nat, p: VarVersionPair)
    requires 0 < n <= |s.stats|
    ensures (exists k :: 0 <= k < n && !FreeOf(s.stats[k], p)) <==>
      (exists k :: 0 <= k < n - 1 && !FreeOf(s.stats[k], p)) || !FreeOf(s.stats[n - 1], p)
  {
    if exists k :: 0 <= k < n && !FreeOf(s.stats[k], p) {
      var k :| 0 <= k < n && !FreeOf(s.stats[k], p);
      if k < n - 1 {
        assert 0 <= k < n - 1 && !FreeOf(s.stats[k], p);
      }
    }
    if exists k :: 0 <= k < n - 1 && !FreeOf(s.stats[k], p) {
      var k :| 0 <= k < n - 1 && !FreeOf(s.stats[k], p);
      assert 0 <= k < n && !FreeOf(s.stats[k], p);
    }
  }

  /** A remap succeeds exactly when `from` occurs somewhere in the statement's expressions,
    * and afterwards it occurs nowhere. */
  lemma {:induction false} RemapOccurrences(s: Statement, from: VarVersionPair, to: VarVersionPair, m: VarType)
    requires from != to
    ensures RemapStat(s, from, to, m).success <==> !FreeOf(s, from)
    ensures FreeOf(RemapStat(s, from, to, m).tree, from)
    decreases s, 1
  {
    var t := RemapStat(s, from, to, m).tree;
    if s.exprents.Some? {
      RemapListFree(s.exprents.value, from, to, m);
    } else {
      ChildSucceedsMeans(s, |s.stats|, from, to, m);
      CompoundExprents(s);
      CompoundExprents(t);
      RemapKindExprs(s.kind, from, to, m);
      AnyHasRemapEach(ObjExprs(s.kind), from, to, m, from);
      forall k | 0 <= k < |t.stats|
        ensures FreeOf(t.stats[k], from)
      {
        RemapOccurrences(s.stats[k], from, to, m);
      }
    }
  }

  /** A remap leaves every variable other than `from` and `to` where it was. */
  lemma {:induction false} RemapKeepsOthers(s: Statement, from: VarVersionPair, to: VarVersionPair, m: VarType, p: VarVersionPair)
    requires from != to && p != from && p != to
    ensures FreeOf(RemapStat(s, from, to, m).tree, p) <==> FreeOf(s, p)
    decreases s
  {
    var t := RemapStat(s, from, to, m).tree;
    if s.exprents.Some? {
      AnyHasRemapList(s.exprents.value, from, to, m, p);
    } else {
      CompoundExprents(s);
      CompoundExprents(t);
      RemapKindExprs(s.kind, from, to, m);
      AnyHasRemapEach(ObjExprs(s.kind), from, to, m, p);
      forall k | 0 <= k < |t.stats|
        ensures FreeOf(t.stats[k], p) <==> FreeOf(s.stats[k], p)
      {
        RemapKeepsOthers(s.stats[k], from, to, m, p);
      }
    }
  }

  /** `remapVar(stat, from, to)` with `getMergedType(from, to)` given as `merged`: equal
    * pairs throw; with no merged type no variable is renamed and nothing changes;
    * otherwise the remap of the whole tree. */
  method RemapVar(s: Statement, from: VarVersionPair, to: VarVersionPair, merged: Option<VarType>)
    returns (r: Result<Remapped>)
    ensures r.Failure? <==> from == to
    ensures r.Failure? ==> r.error == "IllegalArgumentException"
    ensures r.Success? && merged.None? ==> r.value == Remapped(s, false)
    ensures r.Success? && merged.Some? ==> r.value == RemapStat(s, from, to, merged.value)
  {
    if from == to {
      return Failure("IllegalArgumentException");
    }
    if merged.None? {
      return Success(Remapped(s, false));
    }
    var tree, success := RemapStatement(s, from, to, merged.value);
    r := Success(Remapped(tree, success));
  }
}
