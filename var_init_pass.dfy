/**
 * `initStatement` and `getAllVars` with their loops, each proved against the functions of
 * `VarInit` that specify them.
 */
module VarInitPass {
  import opened Wrappers
  import opened Exprents
  import opened Statements
  import opened VarMerge
  import opened VarInit

  // ---------------------------------------------------------------------------------------
  // initStatement, with its loops

  lemma IndicesOfAppend(a: seq<Exprent>, b: seq<Exprent>)
    ensures IndicesOf(a + b) == IndicesOf(a) + IndicesOf(b)
  {
    forall v | v in IndicesOf(a + b)
      ensures v in IndicesOf(a) + IndicesOf(b)
    {
      var k :| 0 <= k < |a + b| && (a + b)[k].Var? && (a + b)[k].index == v;
      if k < |a| {
        assert a[k] == (a + b)[k];
      } else {
        assert b[k - |a|] == (a + b)[k];
      }
    }
    forall v | v in IndicesOf(a) + IndicesOf(b)
      ensures v in IndicesOf(a + b)
    {
      if v in IndicesOf(a) {
        var k :| 0 <= k < |a| && a[k].Var? && a[k].index == v;
        assert (a + b)[k] == a[k];
      } else {
        var k :| 0 <= k < |b| && b[k].Var? && b[k].index == v;
        assert (a + b)[|a| + k] == b[k];
      }
    }
  }

  /** `getAllVars(lst)`: every expression's descendants and then the expression itself, kept
    * when they are variables; a `null` in the list throws. */
  method GetAllVars(lst: seq<Option<Exprent>>) returns (r: Option<seq<Exprent>>)
    ensures r.None? <==> VarSlots(lst).None?
    ensures r.Some? ==> (forall k :: 0 <= k < |r.value| ==> r.value[k].Var?) &&
                        IndicesOf(r.value) == VarSlots(lst).value
  {
    var listTemp: seq<Exprent> := [];
    var x := 0;
    assert lst[0..] == lst && IndicesOf([]) == {};
    JoinLaws(VarSlots(lst), None, None);
    while x < |lst|
      invariant x <= |lst|
      invariant VarSlots(lst) == Join(Some(IndicesOf(listTemp)), VarSlots(lst[x..]))
    {
      if lst[x].None? {
        return None;
      }
      assert lst[x..][1..] == lst[x + 1..] && lst[x..][0] == lst[x];
      var sub := GetAllExprents(lst[x].value, true);
      assert VarSlots(lst[x..]) == Join(Some(IndicesOf(sub + [lst[x].value])), VarSlots(lst[x + 1..]));
      JoinLaws(Some(IndicesOf(listTemp)), Some(IndicesOf(sub + [lst[x].value])), VarSlots(lst[x + 1..]));
      IndicesOfAppend(listTemp, sub + [lst[x].value]);
      listTemp := listTemp + (sub + [lst[x].value]);
      x := x + 1;
    }
    var res: seq<Exprent> := [];
    var y := 0;
    while y < |listTemp|
      invariant y <= |listTemp|
      invariant forall k :: 0 <= k < |res| ==> res[k].Var?
      invariant IndicesOf(res) == IndicesOf(listTemp[..y])
    {
      assert listTemp[..y + 1] == listTemp[..y] + [listTemp[y]];
      IndicesOfAppend(listTemp[..y], [listTemp[y]]);
      if listTemp[y].Var? {
        IndicesOfAppend(res, [listTemp[y]]);
        res := res + [listTemp[y]];
      }
      y := y + 1;
    }
    assert listTemp[..|listTemp|] == listTemp;
    r := Some(res);
  }

  lemma CountMapSnoc(sets: seq<set<int>>, x: nat)
    requires x < |sets|
    ensures var before := CountMap(sets[..x]);
            var after := CountMap(sets[..x + 1]);
            after.Keys == before.Keys + sets[x] &&
            forall k :: k in after ==> after[k] == (if k in before then before[k] else 0) + (if k in sets[x] then 1 else 0)
  {
    assert sets[..x + 1][..x] == sets[..x];
  }

  lemma EmptyIfNoElement(s: set<int>)
    requires forall x :: x !in s
    ensures |s| == 0
  {
    assert forall x :: x in s <==> x in {};
    assert s == {};
  }

  /** A non-empty hash set has an element for its iterator to yield. */
  lemma HasElement(s: set<int>)
    requires |s| > 0
    ensures exists x :: x in s
  {
    if forall x :: x !in s {
      EmptyIfNoElement(s);
      assert false;
    }
  }

  /** One child's set added to the count. */
  method CountOnce(count: map<int, int>, set1: set<int>) returns (c: map<int, int>)
    ensures c.Keys == count.Keys + set1
    ensures forall k :: k in c ==> c[k] == (if k in count then count[k] else 0) + (if k in set1 then 1 else 0)
  {
    var todo := set1;
    c := count;
    while |todo| > 0
      invariant todo <= set1
      invariant forall k :: k in c <==> k in count || (k in set1 && k !in todo)
      invariant forall k :: k in c ==> c[k] == (if k in count then count[k] else 0) + (if k in set1 && k !in todo then 1 else 0)
      decreases todo
    {
      HasElement(todo);
      var k :| k in todo;
      c := c[k := (if k in c then c[k] else 0) + 1];
      todo := todo - {k};
    }
    assert todo == {};
    assert forall k :: k in c.Keys <==> k in count.Keys + set1;
  }

  /** The count of the children's sets: for each slot, how many children use it. */
  method CountChildVars(sets: seq<set<int>>) returns (count: map<int, int>)
    ensures count == CountMap(sets)
  {
    count := map[];
    var x := 0;
    while x < |sets|
      invariant x <= |sets|
      invariant count == CountMap(sets[..x])
    {
      var c := CountOnce(count, sets[x]);
      CountMapSnoc(sets, x);
      assert c.Keys == CountMap(sets[..x + 1]).Keys;
      count := c;
      x := x + 1;
    }
    assert sets[..|sets|] == sets;
  }

  /** The statement's own variables count as 2. */
  method SetOwnVars(count: map<int, int>, vars: seq<Exprent>) returns (r: map<int, int>)
    ensures r == OwnCount(count, IndicesOf(vars))
  {
    r := count;
    var y := 0;
    while y < |vars|
      invariant y <= |vars|
      invariant r == OwnCount(count, IndicesOf(vars[..y]))
    {
      assert vars[..y + 1] == vars[..y] + [vars[y]];
      IndicesOfAppend(vars[..y], [vars[y]]);
      if vars[y].Var? {
        r := r[vars[y].index := 2];
      }
      y := y + 1;
    }
    assert vars[..|vars|] == vars;
  }

  /** The statement becomes the defining statement of every slot counted more than once,
    * and its set of slots is recorded under its id. */
  method RecordDefs(m: InitMaps, id: int, path: seq<nat>, count: map<int, int>) returns (r: InitMaps)
    ensures r == Record(m, id, path, count)
  {
    var defAt := m.defAt;
    var todo := count.Keys;
    while |todo| > 0
      invariant todo <= count.Keys
      invariant forall k :: k in defAt <==> k in m.defAt || (k in count && k !in todo && count[k] > 1)
      invariant forall k :: k in defAt ==> defAt[k] == (if k in count && k !in todo && count[k] > 1 then path else m.defAt[k])
      decreases todo
    {
      HasElement(todo);
      var k :| k in todo;
      if count[k] > 1 {
        defAt := defAt[k := path];
      }
      todo := todo - {k};
    }
    assert todo == {};
    assert forall k :: k in defAt.Keys <==> k in m.defAt.Keys + Defined(count);
    r := InitMaps(defAt, m.statVars[id := count.Keys]);
    assert r.defAt.Keys == Record(m, id, path, count).defAt.Keys;
    assert forall k :: k in r.defAt ==> r.defAt[k] == Record(m, id, path, count).defAt[k];
  }

  /** `InitChildren` with the sets already collected put in front. */
  function Prefixed(sets: seq<set<int>>, rest: Option<(seq<set<int>>, InitMaps)>): Option<(seq<set<int>>, InitMaps)>
  {
    match rest
    case None => None
    case Some((more, m)) => Some((sets + more, m))
  }

  lemma PrefixedLaws(sets: seq<set<int>>, x: set<int>, rest: Option<(seq<set<int>>, InitMaps)>)
    ensures Prefixed([], rest) == rest
    ensures Prefixed(sets, Prefixed([x], rest)) == Prefixed(sets + [x], rest)
  {
    if rest.Some? {
      assert [] + rest.value.0 == rest.value.0;
      assert sets + ([x] + rest.value.0) == (sets + [x]) + rest.value.0;
    }
  }

  /** One more child initialised: its set joins the collected ones. */
  lemma InitChildrenStep(s: Statement, path: seq<nat>, j: nat, cur: InitMaps, sets: seq<set<int>>, m: InitMaps,
                         x: set<int>, m1: InitMaps)
    requires s.exprents.None? && j < |s.stats|
    requires InitStat(s.stats[j], path + [j], cur) == Some((x, m1))
    requires InitChildren(s, path, 0, m) == Prefixed(sets, InitChildren(s, path, j, cur))
    ensures InitChildren(s, path, 0, m) == Prefixed(sets + [x], InitChildren(s, path, j + 1, m1))
  {
    PrefixedLaws(sets, x, InitChildren(s, path, j + 1, m1));
  }

  /** A child that fails makes the whole walk fail. */
  lemma InitChildrenFails(s: Statement, path: seq<nat>, j: nat, cur: InitMaps, sets: seq<set<int>>, m: InitMaps)
    requires s.exprents.None? && j < |s.stats|
    requires InitStat(s.stats[j], path + [j], cur) == None
    requires InitChildren(s, path, 0, m) == Prefixed(sets, InitChildren(s, path, j, cur))
    ensures InitChildren(s, path, 0, m) == None
  {
  }

  /** Once no statement is left, the collected sets are the walk's result. */
  lemma InitChildrenDone(s: Statement, path: seq<nat>, j: nat, cur: InitMaps, sets: seq<set<int>>, m: InitMaps,
                         objs: seq<Obj>)
    requires j <= |s.stats| && StatsOf(objs[|objs|..]) == s.stats[j..]
    requires InitChildren(s, path, 0, m) == Prefixed(sets, InitChildren(s, path, j, cur))
    ensures InitChildren(s, path, 0, m) == Some((sets, cur))
  {
    assert objs[|objs|..] == [];
    assert sets + [] == sets;
  }

  /** `initStatement(stat)`: the children first, then the statement's own count; the
    * statement is recorded at `path`. */
  method InitStatement(s: Statement, path: seq<nat>, m: InitMaps) returns (r: Option<(set<int>, InitMaps)>)
    ensures r == InitStat(s, path, m)
    decreases s, 2
  {
    var count: map<int, int> := map[];
    var cur := m;
    var vars: Option<seq<Exprent>>;
    if s.exprents.None? {
      var children, currVars := InitObjects(s, path, m);
      if children.None? {
        return None;
      }
      cur := children.value.1;
      count := CountChildVars(children.value.0);
      vars := GetAllVars(currVars);
    } else {
      vars := GetAllVars(Somes(s.exprents.value));
    }
    if vars.None? {
      return None;
    }
    count := SetOwnVars(count, vars.value);
    cur := RecordDefs(cur, s.id, path, count);
    r := Some((count.Keys, cur));
  }

  /** The loop over a compound statement's sequential objects: each child statement is
    * initialised in turn, and `currVars` collects the expressions and the children's extra
    * expressions. */
  method InitObjects(s: Statement, path: seq<nat>, m: InitMaps)
    returns (r: Option<(seq<set<int>>, InitMaps)>, currVars: seq<Option<Exprent>>)
    requires s.exprents.None?
    ensures r == InitChildren(s, path, 0, m)
    ensures r.Some? ==> currVars == CurrVars(SequentialObjects(s))
    decreases s, 1
  {
    var objs := SequentialObjects(s);
    var sets: seq<set<int>> := [];
    var cur := m;
    currVars := [];
    var i: nat, j: nat := 0, 0;
    SequentialStats(s);
    PrefixedLaws([], {}, InitChildren(s, path, 0, m));
    while i < |objs|
      invariant i <= |objs| && j <= |s.stats|
      invariant StatsOf(objs[i..]) == s.stats[j..]
      invariant currVars == CurrVars(objs[..i])
      invariant InitChildren(s, path, 0, m) == Prefixed(sets, InitChildren(s, path, j, cur))
    {
      var ok;
      ok, j, sets, cur, currVars := InitObject(s, path, m, objs, i, j, sets, cur, currVars);
      if !ok {
        return None, currVars;
      }
      i := i + 1;
    }
    InitChildrenDone(s, path, j, cur, sets, m, objs);
    assert objs[..|objs|] == objs;
    r := Some((sets, cur));
  }

  /** One object of that loop: a statement is initialised at its index among the children,
    * an expression joins `currVars`. */
  method InitObject(s: Statement, path: seq<nat>, m: InitMaps, objs: seq<Obj>, i: nat, j: nat,
                    sets: seq<set<int>>, cur: InitMaps, currVars: seq<Option<Exprent>>)
    returns (ok: bool, j': nat, sets': seq<set<int>>, cur': InitMaps, currVars': seq<Option<Exprent>>)
    requires s.exprents.None? && i < |objs| && j <= |s.stats|
    requires StatsOf(objs[i..]) == s.stats[j..]
    requires currVars == CurrVars(objs[..i])
    requires InitChildren(s, path, 0, m) == Prefixed(sets, InitChildren(s, path, j, cur))
    ensures !ok ==> InitChildren(s, path, 0, m) == None
    ensures ok ==> j' <= |s.stats| && StatsOf(objs[i + 1..]) == s.stats[j'..]
    ensures ok ==> currVars' == CurrVars(objs[..i + 1])
    ensures ok ==> InitChildren(s, path, 0, m) == Prefixed(sets', InitChildren(s, path, j', cur'))
    decreases s, 0
  {
    CurrVarsStep(objs, i);
    ok, j', sets', cur', currVars' := true, j, sets, cur, currVars;
    if objs[i].StatObj? {
      ObjStatHead(objs, i, s.stats, j);
      var c := objs[i].stat;
      var sub := InitStatement(c, path + [j], cur);
      if sub.None? {
        InitChildrenFails(s, path, j, cur, sets, m);
        return false, j, sets, cur, currVars;
      }
      InitChildrenStep(s, path, j, cur, sets, m, sub.value.0, sub.value.1);
      sets' := sets + [sub.value.0];
      cur' := sub.value.1;
      currVars' := currVars + ChildExtra(c);
      j' := j + 1;
    } else {
      StatsOfStep(objs, i);
      if objs[i].ExprObj? {
        currVars' := currVars + [Some(objs[i].expr)];
      }
    }
  }
}
