/**
 * `StructClass`: what the decompiler keeps of one class file (its name, superclass,
 * interfaces, members and version) and the queries on it.  The class table of the decompiler
 * context, `Map<String, StructClass>`, is passed to the queries that walk the hierarchy.
 */
module StructClasses {
  import opened Wrappers
  import ConstantPool

  /** `CodeConstants.BYTECODE_JAVA_LE_4` and `BYTECODE_JAVA_8` (CodeConstants.java is not part
    * of this model; the values are the class-file majors of Java 1.4 and Java 8). */
  const BYTECODE_JAVA_LE_4: int := 48
  const BYTECODE_JAVA_8: int := 52

  /** A field or method as the class lists it. */
  datatype Member = Member(name: string, descriptor: string)

  /** `InterpreterUtil.makeUniqueKey(name, descriptor)`, the key of the member collections
    * (InterpreterUtil.java is not part of this model). */
  function MakeUniqueKey(name: string, descriptor: string): string
  {
    name + " " + descriptor
  }

  /** The parts of a `StructClass` that never change after `create`. */
  datatype ClassInfo = ClassInfo(
    qualifiedName: string,
    superClass: Option<string>,
    interfaceNames: seq<string>,
    fields: map<string, Member>,
    methods: map<string, Member>,
    minorVersion: int,
    majorVersion: int,
    /** The formal type parameters of the generic signature, `null` without a signature. */
    signature: Option<seq<string>>)

  /** A generic instance type handed to `getGenericMap`: its arguments, `null` where an
    * argument is absent. */
  datatype GenericInstance = GenericInstance(isGeneric: bool, arguments: seq<Option<string>>)

  class StructClass {
    const info: ClassInfo
    /** `loader != null`. */
    const hasLoader: bool
    /** `pool`, `null` once released. */
    var pool: ConstantPool.ConstantPool?
    /** The `superClasses` cache, `null` until the first `getAllSuperClasses`. */
    var superClasses: Option<seq<StructClass>>

    /** The end of `create`: the pool is kept only when there is no loader to reload it. */
    constructor Create(info: ClassInfo, hasLoader: bool, pool: ConstantPool.ConstantPool)
      ensures this.info == info && this.hasLoader == hasLoader
      ensures this.pool == (if hasLoader then null else pool)
      ensures superClasses.None?
    {
      this.info := info;
      this.hasLoader := hasLoader;
      this.pool := if hasLoader then null else pool;
      this.superClasses := None;
    }

    /** `releaseResources()`: drops the pool, but only when the loader can bring it back. */
    method ReleaseResources()
      modifies this
      ensures pool == (if hasLoader then null else old(pool))
      ensures superClasses == old(superClasses)
    {
      if hasLoader {
        pool := null;
      }
    }

    /** `getPool()`: a released pool is reloaded through the loader; `loaded` is what
      * `loader.loadPool(qualifiedName)` returns. */
    method GetPool(loaded: ConstantPool.ConstantPool) returns (r: ConstantPool.ConstantPool?)
      modifies this
      ensures old(pool) != null ==> r == old(pool)
      ensures old(pool) == null && hasLoader ==> r == loaded
      ensures old(pool) == null && !hasLoader ==> r == null
      ensures pool == r && superClasses == old(superClasses)
    {
      if pool == null && hasLoader {
        pool := loaded;
      }
      r := pool;
    }

    /**
     * `getAllSuperClasses()`: the loaded superclasses, nearest first, computed once and then
     * served from the cache.
     */
    method GetAllSuperClasses(classes: map<string, StructClass>, ghost rank: map<string, nat>)
      returns (r: seq<StructClass>)
      requires Ranked(classes, rank)
      modifies this
      ensures old(superClasses).Some? ==> r == old(superClasses).value
      ensures old(superClasses).None? ==> r == SuperChain(classes, rank, info.superClass)
      ensures superClasses == Some(r) && pool == old(pool)
    {
      if superClasses.Some? {
        return superClasses.value;
      }
      var classList: seq<StructClass> := [];
      if info.superClass.Some? && info.superClass.value in classes {
        classList := WalkSuperClasses(classes, rank, info.superClass.value);
      }
      superClasses := Some(classList);
      r := classList;
    }
  }

  /** The loop of `getAllSuperClasses()`: from the loaded class `start`, collect each class
    * and step to its superclass until there is none or it is not loaded. */
  method WalkSuperClasses(classes: map<string, StructClass>, ghost rank: map<string, nat>, start: string)
    returns (classList: seq<StructClass>)
    requires Ranked(classes, rank) && start in classes
    ensures classList == SuperChain(classes, rank, Some(start))
  {
    classList := [];
    var cl := classes[start];
    var name := start;
    while true
      invariant name in classes && cl == classes[name]
      invariant classList + SuperChain(classes, rank, Some(name)) == SuperChain(classes, rank, Some(start))
      decreases rank[name]
    {
      SuperChainStep(classes, rank, name, classList);
      classList := classList + [cl];
      if cl.info.superClass.None? || cl.info.superClass.value !in classes {
        break;
      }
      name := cl.info.superClass.value;
      cl := classes[name];
    }
  }

  /** One step of the walk: the chain from `name` is its class followed by the chain from its
    * superclass, which is empty when there is none or it is not loaded. */
  lemma {:induction false} SuperChainStep(classes: map<string, StructClass>, rank: map<string, nat>, name: string,
      prefix: seq<StructClass>)
    requires Ranked(classes, rank) && name in classes
    ensures var sup := classes[name].info.superClass;
      prefix + SuperChain(classes, rank, Some(name)) == (prefix + [classes[name]]) + SuperChain(classes, rank, sup) &&
      (sup.None? || sup.value !in classes ==> SuperChain(classes, rank, sup) == []) &&
      (sup.Some? && sup.value in classes ==> rank[sup.value] < rank[name])
  {
    var sup := classes[name].info.superClass;
    if sup.Some? {
      assert sup.value in Parents(classes[name].info);
    }
  }

  /** The parents a class names: its superclass, then its interfaces. */
  function Parents(c: ClassInfo): seq<string>
  {
    (if c.superClass.Some? then [c.superClass.value] else []) + c.interfaceNames
  }

  /**
   * The hierarchy is acyclic: `rank` strictly decreases from a loaded class to each loaded
   * class it names as a parent.  Every walk up the hierarchy therefore ends.
   */
  ghost predicate Ranked(classes: map<string, StructClass>, rank: map<string, nat>)
  {
    forall n :: n in classes ==>
      n in rank &&
      (forall p :: p in Parents(classes[n].info) && p in classes ==> p in rank && rank[p] < rank[n])
  }

  /** Each class is filed under its own name. */
  ghost predicate NamedByKey(classes: map<string, StructClass>)
  {
    forall n :: n in classes ==> classes[n].info.qualifiedName == n
  }

  /** A measure that every step up the hierarchy decreases. */
  ghost function Height(classes: map<string, StructClass>, rank: map<string, nat>, n: string): nat
    requires Ranked(classes, rank)
  {
    if n in classes then rank[n] + 1 else 0
  }

  lemma {:induction false} ParentIsLower(classes: map<string, StructClass>, rank: map<string, nat>, n: string, p: string)
    requires Ranked(classes, rank) && n in classes && p in Parents(classes[n].info)
    ensures Height(classes, rank, p) < Height(classes, rank, n)
  {
  }

  /** The loaded classes reached by following superclasses from `start` (included). */
  function SuperChain(classes: map<string, StructClass>, ghost rank: map<string, nat>, start: Option<string>)
    : (r: seq<StructClass>)
    requires Ranked(classes, rank)
    ensures start.None? || start.value !in classes ==> r == []
    ensures start.Some? && start.value in classes ==> |r| > 0 && r[0] == classes[start.value]
    ensures forall c :: c in r ==> c in classes.Values
    decreases if start.Some? then Height(classes, rank, start.value) else 0
  {
    if start.None? || start.value !in classes then []
    else
      var cl := classes[start.value];
      if cl.info.superClass.Some? then
        ParentIsLower(classes, rank, start.value, cl.info.superClass.value);
        [cl] + SuperChain(classes, rank, cl.info.superClass)
      else [cl]
  }

  /** Every class on the chain above `n` sits lower in the hierarchy than `n`. */
  lemma {:induction false} SuperChainBelow(classes: map<string, StructClass>, rank: map<string, nat>,
      start: Option<string>, bound: nat)
    requires Ranked(classes, rank)
    requires NamedByKey(classes)
    requires start.Some? && start.value in classes ==> rank[start.value] < bound
    ensures forall m :: (m in classes && classes[m] in SuperChain(classes, rank, start)) ==> rank[m] < bound
    decreases if start.Some? then Height(classes, rank, start.value) else 0
  {
    if start.Some? && start.value in classes {
      var cl := classes[start.value];
      if cl.info.superClass.Some? {
        ParentIsLower(classes, rank, start.value, cl.info.superClass.value);
        SuperChainBelow(classes, rank, cl.info.superClass, bound);
      }
      forall m | m in classes && classes[m] == cl
        ensures m == start.value
      {
        assert classes[m].info.qualifiedName == m;
      }
    }
  }

  /** `getAllSuperClasses` never lists the class itself. */
  lemma {:induction false} SuperClassesExcludeSelf(classes: map<string, StructClass>, rank: map<string, nat>, n: string)
    requires Ranked(classes, rank) && NamedByKey(classes) && n in classes
    ensures classes[n] !in SuperChain(classes, rank, classes[n].info.superClass)
  {
    var sup := classes[n].info.superClass;
    if sup.Some? && sup.value in classes {
      ParentIsLower(classes, rank, n, sup.value);
    }
    SuperChainBelow(classes, rank, sup, rank[n]);
  }

  /** The chain stops at the first superclass that is not loaded, and at a class without a
    * superclass: each listed class's successor is its own loaded superclass. */
  lemma {:induction false} SuperChainLinks(classes: map<string, StructClass>, rank: map<string, nat>,
      start: Option<string>, k: nat)
    requires Ranked(classes, rank)
    requires k + 1 < |SuperChain(classes, rank, start)|
    ensures var r := SuperChain(classes, rank, start);
      r[k].info.superClass.Some? && r[k].info.superClass.value in classes &&
      r[k + 1] == classes[r[k].info.superClass.value]
    decreases k
  {
    var cl := classes[start.value];
    if k > 0 {
      SuperChainLinks(classes, rank, cl.info.superClass, k - 1);
    }
  }

  // ---------------------------------------------------------------------------------------
  // Members

  /** `getField(name, descriptor)`, `null` for a field the class does not declare. */
  function GetField(c: ClassInfo, name: string, descriptor: string): Option<Member>
  {
    var key := MakeUniqueKey(name, descriptor);
    if key in c.fields then Some(c.fields[key]) else None
  }

  /** `hasField(name, descriptor)` is `getField(name, descriptor) != null`. */
  predicate HasField(c: ClassInfo, name: string, descriptor: string)
  {
    GetField(c, name, descriptor).Some?
  }

  lemma {:induction false} HasFieldMeansKeyed(c: ClassInfo, name: string, descriptor: string)
    ensures HasField(c, name, descriptor) <==> name + " " + descriptor in c.fields
    ensures HasField(c, name, descriptor) ==> GetField(c, name, descriptor) == Some(c.fields[name + " " + descriptor])
  {
  }

  /** `getMethod(name, descriptor)`. */
  function GetMethod(c: ClassInfo, name: string, descriptor: string): Option<Member>
  {
    var key := MakeUniqueKey(name, descriptor);
    if key in c.methods then Some(c.methods[key]) else None
  }

  /**
   * `getMethodRecursive(name, descriptor)` on the class filed under `n`: the class's own
   * method; else what the loaded superclass finds; else what the first loaded interface, in
   * declared order, finds.
   */
  function GetMethodRecursive(classes: map<string, StructClass>, ghost rank: map<string, nat>,
                              n: string, name: string, descriptor: string): Option<Member>
    requires Ranked(classes, rank) && n in classes
    decreases Height(classes, rank, n), 1
  {
    var c := classes[n].info;
    var own := GetMethod(c, name, descriptor);
    if own.Some? then own
    else
      var fromSuper :=
        if c.superClass.Some? && c.superClass.value in classes then
          ParentIsLower(classes, rank, n, c.superClass.value);
          GetMethodRecursive(classes, rank, c.superClass.value, name, descriptor)
        else None;
      if fromSuper.Some? then fromSuper
      else FromInterfaces(classes, rank, n, 0, name, descriptor)
  }

  /** The interface loop of `getMethodRecursive`, from interface `k` on. */
  function FromInterfaces(classes: map<string, StructClass>, ghost rank: map<string, nat>,
                          n: string, k: nat, name: string, descriptor: string): Option<Member>
    requires Ranked(classes, rank) && n in classes
    decreases Height(classes, rank, n), 0, |classes[n].info.interfaceNames| - k
  {
    var c := classes[n].info;
    if k >= |c.interfaceNames| then None
    else
      var intf := c.interfaceNames[k];
      var found :=
        if intf in classes then
          ParentIsLower(classes, rank, n, intf);
          GetMethodRecursive(classes, rank, intf, name, descriptor)
        else None;
      if found.Some? then found else FromInterfaces(classes, rank, n, k + 1, name, descriptor)
  }

  /** Whether some class reachable from `n` through loaded parents declares the method. */
  ghost predicate DeclaredAbove(classes: map<string, StructClass>, rank: map<string, nat>, n: string, key: string)
    requires Ranked(classes, rank) && n in classes
    decreases Height(classes, rank, n)
  {
    key in classes[n].info.methods ||
    exists p :: p in Parents(classes[n].info) && p in classes &&
      ParentIsLowerPred(classes, rank, n, p) && DeclaredAbove(classes, rank, p, key)
  }

  ghost predicate ParentIsLowerPred(classes: map<string, StructClass>, rank: map<string, nat>, n: string, p: string)
    requires Ranked(classes, rank) && n in classes && p in Parents(classes[n].info)
    ensures ParentIsLowerPred(classes, rank, n, p)
  {
    ParentIsLower(classes, rank, n, p); true
  }

  /**
   * `getMethodRecursive` finds a method exactly when some class up the loaded hierarchy
   * declares it; the class's own declaration wins.
   */
  lemma {:induction false} MethodRecursiveFindsDeclared(classes: map<string, StructClass>,
      rank: map<string, nat>, n: string, name: string, descriptor: string)
    requires Ranked(classes, rank) && n in classes
    ensures var r := GetMethodRecursive(classes, rank, n, name, descriptor);
      (r.Some? <==> DeclaredAbove(classes, rank, n, MakeUniqueKey(name, descriptor))) &&
      (MakeUniqueKey(name, descriptor) in classes[n].info.methods ==>
         r == Some(classes[n].info.methods[MakeUniqueKey(name, descriptor)]))
    decreases Height(classes, rank, n), 1
  {
    var c := classes[n].info;
    var key := MakeUniqueKey(name, descriptor);
    if key !in c.methods {
      var r := GetMethodRecursive(classes, rank, n, name, descriptor);
      if c.superClass.Some? && c.superClass.value in classes {
        ParentIsLower(classes, rank, n, c.superClass.value);
        MethodRecursiveFindsDeclared(classes, rank, c.superClass.value, name, descriptor);
      }
      InterfacesFindDeclared(classes, rank, n, 0, name, descriptor);
      DeclaredAboveUnfold(classes, rank, n, key);
    }
  }

  /** A class that does not declare `key` itself has it above exactly when its loaded
    * superclass or one of its loaded interfaces has it above. */
  lemma {:induction false} DeclaredAboveUnfold(classes: map<string, StructClass>, rank: map<string, nat>,
      n: string, key: string)
    requires Ranked(classes, rank) && n in classes && key !in classes[n].info.methods
    ensures var c := classes[n].info;
      DeclaredAbove(classes, rank, n, key) <==>
        (c.superClass.Some? && c.superClass.value in classes && DeclaredAbove(classes, rank, c.superClass.value, key)) ||
        (exists j :: 0 <= j < |c.interfaceNames| && c.interfaceNames[j] in classes &&
                     DeclaredAbove(classes, rank, c.interfaceNames[j], key))
  {
    var c := classes[n].info;
    if DeclaredAbove(classes, rank, n, key) {
      var p :| p in Parents(c) && p in classes && ParentIsLowerPred(classes, rank, n, p)
        && DeclaredAbove(classes, rank, p, key);
      ParentsCases(c, p);
      if p in c.interfaceNames {
        var k :| 0 <= k < |c.interfaceNames| && c.interfaceNames[k] == p;
      }
    }
    if c.superClass.Some? && c.superClass.value in classes && DeclaredAbove(classes, rank, c.superClass.value, key) {
      ParentsCases(c, c.superClass.value);
      DeclaredViaParent(classes, rank, n, c.superClass.value, key);
    }
    if exists j :: 0 <= j < |c.interfaceNames| && c.interfaceNames[j] in classes &&
                   DeclaredAbove(classes, rank, c.interfaceNames[j], key) {
      var j :| 0 <= j < |c.interfaceNames| && c.interfaceNames[j] in classes &&
               DeclaredAbove(classes, rank, c.interfaceNames[j], key);
      ParentsCases(c, c.interfaceNames[j]);
      DeclaredViaParent(classes, rank, n, c.interfaceNames[j], key);
    }
  }

  /** The parents of a class are its superclass and its interfaces, and nothing else. */
  lemma ParentsCases(c: ClassInfo, p: string)
    ensures p in Parents(c) <==> (c.superClass.Some? && p == c.superClass.value) || p in c.interfaceNames
  {
  }

  /** A method declared above a loaded parent is declared above the class. */
  lemma DeclaredViaParent(classes: map<string, StructClass>, rank: map<string, nat>, n: string, p: string,
      key: string)
    requires Ranked(classes, rank) && n in classes && p in Parents(classes[n].info) && p in classes
    requires DeclaredAbove(classes, rank, p, key)
    ensures DeclaredAbove(classes, rank, n, key)
  {
    assert ParentIsLowerPred(classes, rank, n, p);
  }

  lemma {:induction false} InterfacesFindDeclared(classes: map<string, StructClass>,
      rank: map<string, nat>, n: string, k: nat, name: string, descriptor: string)
    requires Ranked(classes, rank) && n in classes
    ensures var c := classes[n].info;
      FromInterfaces(classes, rank, n, k, name, descriptor).Some? <==>
      exists j :: k <= j < |c.interfaceNames| && c.interfaceNames[j] in classes &&
        DeclaredAbove(classes, rank, c.interfaceNames[j], MakeUniqueKey(name, descriptor))
    decreases Height(classes, rank, n), 0, |classes[n].info.interfaceNames| - k
  {
    var c := classes[n].info;
    if k < |c.interfaceNames| {
      var intf := c.interfaceNames[k];
      if intf in classes {
        assert intf in Parents(c);
        ParentIsLower(classes, rank, n, intf);
        MethodRecursiveFindsDeclared(classes, rank, intf, name, descriptor);
      }
      InterfacesFindDeclared(classes, rank, n, k + 1, name, descriptor);
    }
  }

  /** Whether `m` is the method `key` of `n` or of some class reachable from `n` through
    * loaded parents. */
  ghost predicate DeclaredAboveAs(classes: map<string, StructClass>, rank: map<string, nat>, n: string,
                                  key: string, m: Member)
    requires Ranked(classes, rank) && n in classes
    decreases Height(classes, rank, n)
  {
    (key in classes[n].info.methods && classes[n].info.methods[key] == m) ||
    exists p :: p in Parents(classes[n].info) && p in classes &&
      ParentIsLowerPred(classes, rank, n, p) && DeclaredAboveAs(classes, rank, p, key, m)
  }

  /** What `getMethodRecursive` finds is the method declared under that key by the class or
    * by a class up its loaded hierarchy. */
  lemma {:induction false} MethodRecursiveFoundIsDeclared(classes: map<string, StructClass>,
      rank: map<string, nat>, n: string, name: string, descriptor: string)
    requires Ranked(classes, rank) && n in classes
    ensures var r := GetMethodRecursive(classes, rank, n, name, descriptor);
      r.Some? ==> DeclaredAboveAs(classes, rank, n, MakeUniqueKey(name, descriptor), r.value)
    decreases Height(classes, rank, n), 1
  {
    var c := classes[n].info;
    var key := MakeUniqueKey(name, descriptor);
    var r := GetMethodRecursive(classes, rank, n, name, descriptor);
    if key !in c.methods && r.Some? {
      if c.superClass.Some? && c.superClass.value in classes &&
         (ParentIsLower(classes, rank, n, c.superClass.value);
          GetMethodRecursive(classes, rank, c.superClass.value, name, descriptor).Some?) {
        var p := c.superClass.value;
        MethodRecursiveFoundIsDeclared(classes, rank, p, name, descriptor);
        assert p in Parents(c) && ParentIsLowerPred(classes, rank, n, p);
      } else {
        InterfacesFoundAreDeclared(classes, rank, n, 0, name, descriptor);
        var j :| 0 <= j < |c.interfaceNames| && c.interfaceNames[j] in classes &&
                 DeclaredAboveAs(classes, rank, c.interfaceNames[j], key, r.value);
        assert Parents(c)[|Parents(c)| - |c.interfaceNames| + j] == c.interfaceNames[j];
        assert ParentIsLowerPred(classes, rank, n, c.interfaceNames[j]);
      }
    }
  }

  lemma {:induction false} InterfacesFoundAreDeclared(classes: map<string, StructClass>,
      rank: map<string, nat>, n: string, k: nat, name: string, descriptor: string)
    requires Ranked(classes, rank) && n in classes
    ensures var c := classes[n].info;
      var r := FromInterfaces(classes, rank, n, k, name, descriptor);
      r.Some? ==>
        exists j :: k <= j < |c.interfaceNames| && c.interfaceNames[j] in classes &&
                    DeclaredAboveAs(classes, rank, c.interfaceNames[j], MakeUniqueKey(name, descriptor), r.value)
    decreases Height(classes, rank, n), 0, |classes[n].info.interfaceNames| - k
  {
    var c := classes[n].info;
    if k < |c.interfaceNames| {
      var intf := c.interfaceNames[k];
      if intf in classes {
        assert intf in Parents(c);
        ParentIsLower(classes, rank, n, intf);
        MethodRecursiveFoundIsDeclared(classes, rank, intf, name, descriptor);
      }
      InterfacesFoundAreDeclared(classes, rank, n, k + 1, name, descriptor);
    }
  }

  // ---------------------------------------------------------------------------------------
  // Versions

  /** The version `create` hands to the method readers: never below Java 1.4's major. */
  function EffectiveBytecodeVersion(majorVersion: int): (v: int)
    ensures v >= BYTECODE_JAVA_LE_4 && v >= majorVersion
    ensures v == majorVersion || v == BYTECODE_JAVA_LE_4
  {
    if majorVersion > BYTECODE_JAVA_LE_4 then majorVersion else BYTECODE_JAVA_LE_4
  }

  /** `isVersion5()`: past 48.0 (a 48.x class with a non-zero minor counts). */
  predicate IsVersion5(c: ClassInfo)
  {
    c.majorVersion > BYTECODE_JAVA_LE_4 || (c.majorVersion == BYTECODE_JAVA_LE_4 && c.minorVersion > 0)
  }

  /** `isVersion8()`. */
  predicate IsVersion8(c: ClassInfo)
  {
    c.majorVersion >= BYTECODE_JAVA_8
  }

  lemma {:induction false} Version8IsVersion5(c: ClassInfo)
    ensures IsVersion8(c) ==> IsVersion5(c)
    ensures IsVersion5(c) <==> c.majorVersion > 48 || (c.majorVersion == 48 && c.minorVersion > 0)
  {
  }

  /** The key `GenericType.parse("T" + name + ";")`: a type variable named `name`. */
  function TypeVarKey(name: string): string { "T" + name + ";" }

  /**
   * `getGenericMap(type)`: empty without a signature or a generic type, and empty when the
   * argument count differs from the formal parameters; otherwise each formal parameter maps
   * to its non-null argument (a repeated parameter keeps the later argument).
   */
  predicate Matches(c: ClassInfo, t: Option<GenericInstance>)
  {
    c.signature.Some? && t.Some? && t.value.isGeneric
  }

  /** Among the first `n` formal parameters, one named by `key` has the argument `value`. */
  predicate Binds(fparameters: seq<string>, args: seq<Option<string>>, n: int, key: string, value: string)
  {
    exists y :: 0 <= y < n && y < |fparameters| && y < |args| && args[y] == Some(value) &&
      key == TypeVarKey(fparameters[y])
  }

  method GetGenericMap(c: ClassInfo, t: Option<GenericInstance>) returns (ret: map<string, string>)
    ensures c.signature.None? || t.None? || !t.value.isGeneric ==> ret == map[]
    ensures Matches(c, t) && |t.value.arguments| != |c.signature.value| ==> ret == map[]
    ensures Matches(c, t) && |t.value.arguments| == |c.signature.value| ==>
      forall x :: 0 <= x < |c.signature.value| && t.value.arguments[x].Some? ==>
        TypeVarKey(c.signature.value[x]) in ret
    ensures Matches(c, t) && |t.value.arguments| == |c.signature.value| ==>
      forall key :: key in ret ==> Binds(c.signature.value, t.value.arguments, |c.signature.value|, key, ret[key])
  {
    if c.signature.None? || t.None? || !t.value.isGeneric {
      return map[];
    }
    var fparameters := c.signature.value;
    var args := t.value.arguments;
    if |args| != |fparameters| {
      return map[];
    }
    ret := map[];
    var x := 0;
    while x < |fparameters|
      invariant 0 <= x <= |fparameters|
      invariant forall y :: 0 <= y < x && args[y].Some? ==> TypeVarKey(fparameters[y]) in ret
      invariant forall key :: key in ret ==> Binds(fparameters, args, x, key, ret[key])
    {
      var v := args[x];
      if v.Some? {
        ret := ret[TypeVarKey(fparameters[x]) := v.value];
      }
      x := x + 1;
    }
  }
}
