/**
 * `StructContext`: the decompiler's table of loaded classes and the hierarchy queries on it
 * (`instanceOf`, `getFirstCommonClass`), plus the parameter-name metadata for abstract
 * methods (`loadAbstractMetadata`, `renameAbstractParameter`).
 */
module StructContexts {
  import opened Wrappers
  import opened StructClasses

  // ---------------------------------------------------------------------------------------
  // instanceOf

  /**
   * `instanceOf(valclass, refclass)` over the context's class table: equal names, or a
   * loaded `valclass` whose superclass, or one of whose interfaces in declared order, is an
   * instance of `refclass`.
   */
  function InstanceOf(classes: map<string, StructClass>, ghost rank: map<string, nat>,
                      valclass: string, refclass: string): bool
    requires Ranked(classes, rank)
    decreases Height(classes, rank, valclass), 1
  {
    if valclass == refclass then true
    else if valclass !in classes then false
    else
      var cl := classes[valclass].info;
      if cl.superClass.Some? &&
         (ParentIsLower(classes, rank, valclass, cl.superClass.value);
          InstanceOf(classes, rank, cl.superClass.value, refclass)) then true
      else AnyInterfaceIs(classes, rank, valclass, 0, refclass)
  }

  /** The interface loop of `instanceOf`, from interface `k` on. */
  function AnyInterfaceIs(classes: map<string, StructClass>, ghost rank: map<string, nat>,
                          owner: string, k: nat, refclass: string): bool
    requires Ranked(classes, rank) && owner in classes
    decreases Height(classes, rank, owner), 0, |classes[owner].info.interfaceNames| - k
  {
    var names := classes[owner].info.interfaceNames;
    if k >= |names| then false
    else
      ParentIsLower(classes, rank, owner, names[k]);
      if InstanceOf(classes, rank, names[k], refclass) then true
      else AnyInterfaceIs(classes, rank, owner, k + 1, refclass)
  }

  lemma {:induction false} AnyInterfaceIsExists(classes: map<string, StructClass>, rank: map<string, nat>,
      owner: string, k: nat, refclass: string)
    requires Ranked(classes, rank) && owner in classes
    ensures AnyInterfaceIs(classes, rank, owner, k, refclass) <==>
      exists j :: k <= j < |classes[owner].info.interfaceNames| &&
        InstanceOf(classes, rank, classes[owner].info.interfaceNames[j], refclass)
    decreases |classes[owner].info.interfaceNames| - k
  {
    if k < |classes[owner].info.interfaceNames| {
      AnyInterfaceIsExists(classes, rank, owner, k + 1, refclass);
    }
  }

  /**
   * The recursive characterisation of `instanceOf`: `v` is an instance of `r` exactly when
   * the names are equal, or `v` is loaded and its superclass or one of its interfaces is an
   * instance of `r`.  An unknown `v` is an instance of nothing but itself.
   */
  lemma {:induction false} InstanceOfCharacterised(classes: map<string, StructClass>, rank: map<string, nat>,
      v: string, r: string)
    requires Ranked(classes, rank)
    ensures InstanceOf(classes, rank, v, v)
    ensures v != r && v !in classes ==> !InstanceOf(classes, rank, v, r)
    ensures InstanceOf(classes, rank, v, r) <==>
      v == r ||
      (v in classes &&
       ((classes[v].info.superClass.Some? &&
         InstanceOf(classes, rank, classes[v].info.superClass.value, r)) ||
        (exists j :: 0 <= j < |classes[v].info.interfaceNames| &&
           InstanceOf(classes, rank, classes[v].info.interfaceNames[j], r))))
  {
    if v in classes {
      AnyInterfaceIsExists(classes, rank, v, 0, r);
    }
  }

  /** Subtyping is transitive. */
  lemma {:induction false} InstanceOfTransitive(classes: map<string, StructClass>, rank: map<string, nat>,
      a: string, b: string, c: string)
    requires Ranked(classes, rank)
    requires InstanceOf(classes, rank, a, b) && InstanceOf(classes, rank, b, c)
    ensures InstanceOf(classes, rank, a, c)
    decreases Height(classes, rank, a)
  {
    if a != b {
      InstanceOfCharacterised(classes, rank, a, b);
      InstanceOfCharacterised(classes, rank, a, c);
      var cl := classes[a].info;
      if cl.superClass.Some? && InstanceOf(classes, rank, cl.superClass.value, b) {
        ParentIsLower(classes, rank, a, cl.superClass.value);
        InstanceOfTransitive(classes, rank, cl.superClass.value, b, c);
      } else {
        var j :| 0 <= j < |cl.interfaceNames| && InstanceOf(classes, rank, cl.interfaceNames[j], b);
        ParentIsLower(classes, rank, a, cl.interfaceNames[j]);
        InstanceOfTransitive(classes, rank, cl.interfaceNames[j], b, c);
      }
    }
  }

  /** A class is an instance of every class on its superclass chain. */
  lemma {:induction false} InstanceOfSuperChain(classes: map<string, StructClass>, rank: map<string, nat>,
      start: string, k: nat)
    requires Ranked(classes, rank) && NamedByKey(classes)
    requires k < |SuperChain(classes, rank, Some(start))|
    ensures InstanceOf(classes, rank, start, SuperChain(classes, rank, Some(start))[k].info.qualifiedName)
    decreases k
  {
    var chain := SuperChain(classes, rank, Some(start));
    if k > 0 {
      var sup := classes[start].info.superClass.value;
      ParentIsLower(classes, rank, start, sup);
      assert chain[k] == SuperChain(classes, rank, Some(sup))[k - 1];
      InstanceOfSuperChain(classes, rank, sup, k - 1);
      InstanceOfCharacterised(classes, rank, start, chain[k].info.qualifiedName);
      InstanceOfTransitive(classes, rank, start, sup, chain[k].info.qualifiedName);
    }
  }

  // ---------------------------------------------------------------------------------------
  // getFirstCommonClass

  /** The first element of `chain` that `list` contains, compared by identity. */
  /** `chain[k]` is in `list` and no element before it is. */
  predicate FirstAt(chain: seq<StructClass>, list: seq<StructClass>, k: int)
  {
    0 <= k < |chain| && chain[k] in list && forall j :: 0 <= j < k ==> chain[j] !in list
  }

  function FirstIn(chain: seq<StructClass>, list: seq<StructClass>): (r: Option<StructClass>)
    ensures r.Some? ==> r.value in list && exists k :: FirstAt(chain, list, k) && chain[k] == r.value
    ensures r.None? ==> forall j :: 0 <= j < |chain| ==> chain[j] !in list
  {
    if |chain| == 0 then None
    else if chain[0] in list then Some(chain[0])
    else
      var r := FirstIn(chain[1..], list);
      assert forall j :: 1 <= j < |chain| ==> chain[j] == chain[1..][j - 1];
      r
  }

  /**
   * The result of `getFirstCommonClass` is a common supertype of both classes: every
   * candidate lies on `second`'s chain of superclasses and on `first`'s own chain.
   */
  lemma {:induction false} FirstCommonIsCommonSupertype(classes: map<string, StructClass>,
      rank: map<string, nat>, first: string, second: string)
    requires Ranked(classes, rank) && NamedByKey(classes) && first in classes && second in classes
    ensures var r := FirstIn(SuperChain(classes, rank, Some(first)),
                             SuperChain(classes, rank, classes[second].info.superClass));
      r.Some? ==>
        InstanceOf(classes, rank, first, r.value.info.qualifiedName) &&
        InstanceOf(classes, rank, second, r.value.info.qualifiedName) &&
        r.value.info.qualifiedName != second
  {
    var chain := SuperChain(classes, rank, Some(first));
    var list := SuperChain(classes, rank, classes[second].info.superClass);
    var r := FirstIn(chain, list);
    if r.Some? {
      var k :| FirstAt(chain, list, k) && chain[k] == r.value;
      InstanceOfSuperChain(classes, rank, first, k);
      var i :| 0 <= i < |list| && list[i] == r.value;
      assert SuperChain(classes, rank, Some(second))[i + 1] == list[i];
      InstanceOfSuperChain(classes, rank, second, i + 1);
      SuperClassesExcludeSelf(classes, rank, second);
    }
  }

  /** `getFirstCommonClass(x, x)` is never `x` itself: its own superclasses do not list it. */
  lemma {:induction false} FirstCommonOfSelf(classes: map<string, StructClass>, rank: map<string, nat>, x: string)
    requires Ranked(classes, rank) && NamedByKey(classes) && x in classes
    ensures FirstIn(SuperChain(classes, rank, Some(x)), SuperChain(classes, rank, classes[x].info.superClass))
      != Some(classes[x])
  {
    SuperClassesExcludeSelf(classes, rank, x);
  }

  // ---------------------------------------------------------------------------------------
  // Abstract parameter names

  /** Java's `String.split` on a one-character separator, before trailing empties are cut:
    * the text between consecutive separators. */
  function Pieces(s: string, sep: char): (r: seq<string>)
    ensures |r| >= 1
  {
    if |s| == 0 then [""]
    else
      var rest := Pieces(s[1..], sep);
      if s[0] == sep then [""] + rest else [[s[0]] + rest[0]] + rest[1..]
  }

  /** `pieces` joined back with the separator between them. */
  function Join(pieces: seq<string>, sep: char): string
    requires |pieces| >= 1
  {
    if |pieces| == 1 then pieces[0] else pieces[0] + [sep] + Join(pieces[1..], sep)
  }

  /** `Pieces` cuts the text exactly at the separators: joining gives it back and no piece
    * holds a separator. */
  lemma {:induction false} PiecesJoin(s: string, sep: char)
    ensures Join(Pieces(s, sep), sep) == s
    ensures forall k :: 0 <= k < |Pieces(s, sep)| ==> sep !in Pieces(s, sep)[k]
  {
    if |s| > 0 {
      PiecesJoin(s[1..], sep);
      var rest := Pieces(s[1..], sep);
      if s[0] == sep {
        assert Pieces(s, sep)[1..] == rest;
        assert s == [] + [sep] + s[1..];
      } else {
        var r := Pieces(s, sep);
        assert r[1..] == rest[1..];
        if |rest| == 1 {
          assert s == [s[0]] + s[1..];
        } else {
          assert Join(rest, sep) == rest[0] + [sep] + Join(rest[1..], sep);
          assert s == [s[0]] + s[1..];
        }
        forall k | 0 <= k < |r| ensures sep !in r[k]
        {
          if k > 0 { assert r[k] == rest[k]; }
        }
      }
    }
  }

  /** Trailing empty strings removed. */
  function DropTrailingEmpty(p: seq<string>): (r: seq<string>)
    ensures |r| <= |p| && r == p[..|r|]
    ensures |r| > 0 ==> r[|r| - 1] != ""
    ensures forall k :: |r| <= k < |p| ==> p[k] == ""
  {
    if |p| == 0 then []
    else if p[|p| - 1] == "" then DropTrailingEmpty(p[..|p| - 1])
    else p
  }

  /** `s.split(sep)` for a one-character separator: the whole string when it holds no
    * separator (so `""` gives `[""]`), otherwise the pieces without the trailing empty ones. */
  function Split(s: string, sep: char): seq<string>
  {
    if sep !in s then [s] else DropTrailingEmpty(Pieces(s, sep))
  }

  lemma {:induction false} SplitWithoutSeparator(s: string, sep: char)
    requires sep !in s
    ensures Split(s, sep) == [s]
  {
  }

  /** What a split keeps: a prefix of the pieces, none holding the separator, and the cut
    * pieces are all empty. */
  lemma {:induction false} SplitIsPrefixOfPieces(s: string, sep: char)
    requires sep in s
    ensures var r := Split(s, sep);
      r == Pieces(s, sep)[..|r|] && (forall k :: 0 <= k < |r| ==> sep !in r[k]) &&
      forall k :: |r| <= k < |Pieces(s, sep)| ==> Pieces(s, sep)[k] == ""
  {
    PiecesJoin(s, sep);
    var r := Split(s, sep);
    forall k | 0 <= k < |r| ensures sep !in r[k]
    {
      assert r[k] == Pieces(s, sep)[k];
    }
  }

  /** `n` copies of `x`. */
  function Repeat(x: string, n: nat): (r: seq<string>)
    ensures |r| == n && forall k :: 0 <= k < n ==> r[k] == x
  {
    if n == 0 then [] else Repeat(x, n - 1) + [x]
  }

  /** The first slot of parameter `x`: the stack sizes of the parameters before it. */
  function Offset(sizes: seq<nat>, x: nat): nat
    requires x <= |sizes|
  {
    if x == 0 then 0 else Offset(sizes, x - 1) + sizes[x - 1]
  }

  /** The slot names of the parameters named `names`: each name repeated for its parameter's
    * stack size. */
  function SlotNames(names: seq<string>, sizes: seq<nat>): (r: seq<string>)
    requires |names| <= |sizes|
  {
    if |names| == 0 then []
    else SlotNames(names[..|names| - 1], sizes) + Repeat(names[|names| - 1], sizes[|names| - 1])
  }

  /** Every slot of parameter `x` carries its name, and the names fill the slots exactly. */
  lemma {:induction false} SlotNamesCoverParameters(names: seq<string>, sizes: seq<nat>, x: nat, i: int)
    requires |names| <= |sizes| && x < |names|
    requires Offset(sizes, x) <= i < Offset(sizes, x) + sizes[x]
    ensures |SlotNames(names, sizes)| == Offset(sizes, |names|)
    ensures 0 <= i < |SlotNames(names, sizes)| && SlotNames(names, sizes)[i] == names[x]
    decreases |names|
  {
    SlotNamesLength(names, sizes);
    var n := |names|;
    var init := names[..n - 1];
    SlotNamesLength(init, sizes);
    if x < n - 1 {
      SlotNamesCoverParameters(init, sizes, x, i);
      OffsetMonotone(sizes, x + 1, n - 1);
    } else {
      assert SlotNames(names, sizes)[i] == Repeat(names[n - 1], sizes[n - 1])[i - Offset(sizes, n - 1)];
    }
  }

  lemma {:induction false} SlotNamesLength(names: seq<string>, sizes: seq<nat>)
    requires |names| <= |sizes|
    ensures |SlotNames(names, sizes)| == Offset(sizes, |names|)
    decreases |names|
  {
    if |names| > 0 {
      SlotNamesLength(names[..|names| - 1], sizes);
    }
  }

  lemma {:induction false} OffsetMonotone(sizes: seq<nat>, x: nat, y: nat)
    requires x <= y <= |sizes|
    ensures Offset(sizes, x) <= Offset(sizes, y)
    decreases y - x
  {
    if x < y {
      OffsetMonotone(sizes, x, y - 1);
    }
  }

  /** The key `loadAbstractMetadata` files a method under and `renameAbstractParameter` looks
    * up: class, method and descriptor separated by spaces. */
  function MetadataKey(className: string, methodName: string, descriptor: string): string
  {
    className + [' '] + methodName + [' '] + descriptor
  }

  /** Where the loading of the metadata has got to: the names so far and whether a line
    * failed. */
  datatype Loaded = Loaded(names: map<string, seq<string>>, outcome: Outcome)

  /**
   * `loadAbstractMetadata` as a fold over the lines: a line with fewer than four fields is
   * skipped; otherwise it files the slot names of its parameters under its key.  A line
   * naming more parameters than its descriptor has fails (`IndexOutOfBoundsException`),
   * leaving what the earlier lines filed.  `stackSizes` gives the stack sizes of the
   * descriptor's parameter types (descriptor parsing is not part of this model).
   */
  function LoadLines(names: map<string, seq<string>>, lines: seq<string>,
                     stackSizes: string -> seq<nat>): Loaded
    decreases |lines|
  {
    if |lines| == 0 then Loaded(names, Pass)
    else
      var pts := Split(lines[0], ' ');
      if |pts| < 4 then LoadLines(names, lines[1..], stackSizes)
      else if |pts| - 3 > |stackSizes(pts[2])| then Loaded(names, Fail("IndexOutOfBoundsException"))
      else
        LoadLines(names[MetadataKey(pts[0], pts[1], pts[2]) := SlotNames(pts[3..], stackSizes(pts[2]))],
                  lines[1..], stackSizes)
  }

  /** A line with fewer than four fields changes nothing. */
  lemma {:induction false} ShortLineIgnored(names: map<string, seq<string>>, line: string,
      rest: seq<string>, stackSizes: string -> seq<nat>)
    requires |Split(line, ' ')| < 4
    ensures LoadLines(names, [line] + rest, stackSizes) == LoadLines(names, rest, stackSizes)
  {
    assert ([line] + rest)[1..] == rest;
  }

  // ---------------------------------------------------------------------------------------
  // The context

  class StructContext {
    /** `classes`: the loaded classes by name. */
    var classes: map<string, StructClass>
    /** A witness that the hierarchy is acyclic. */
    ghost var rank: map<string, nat>
    /** `abstractNames`: slot names of abstract methods' parameters, by `MetadataKey`. */
    var abstractNames: map<string, seq<string>>

    /** The table is acyclic and named by key, and every filled superclass cache is the
      * class's chain of superclasses. */
    ghost predicate Valid()
      reads this, classes.Values
    {
      Ranked(classes, rank) && NamedByKey(classes) &&
      forall n :: n in classes && classes[n].superClasses.Some? ==>
        classes[n].superClasses.value == SuperChain(classes, rank, classes[n].info.superClass)
    }

    constructor (classes: map<string, StructClass>, ghost rank: map<string, nat>)
      requires Ranked(classes, rank) && NamedByKey(classes)
      requires forall n :: n in classes ==> classes[n].superClasses.None?
      ensures Valid() && this.classes == classes && this.rank == rank && abstractNames == map[]
    {
      this.classes := classes;
      this.rank := rank;
      this.abstractNames := map[];
    }

    /** `getClass(name)`. */
    function GetClass(name: string): (r: Option<StructClass>)
      reads this
      ensures r.Some? <==> name in classes
      ensures NamedByKey(classes) && r.Some? ==> r.value.info.qualifiedName == name
    {
      if name in classes then Some(classes[name]) else None
    }

    /**
     * `getFirstCommonClass(first, second)`: nothing when either class is unknown; otherwise
     * the first class on `first`'s chain, `first` included, that `second`'s (cached) list of
     * superclasses contains.
     */
    method GetFirstCommonClass(first: string, second: string) returns (r: Option<StructClass>)
      requires Valid()
      modifies classes.Values
      ensures Valid() && classes == old(classes) && rank == old(rank)
      ensures abstractNames == old(abstractNames)
      ensures forall n :: n in classes ==> classes[n].pool == old(classes[n].pool)
      ensures first !in classes || second !in classes ==> r.None?
      ensures first in classes && second in classes ==>
        r == FirstIn(SuperChain(classes, rank, Some(first)),
                     SuperChain(classes, rank, classes[second].info.superClass))
    {
      var fcls := GetClass(first);
      var scls := GetClass(second);
      if fcls.Some? && scls.Some? {
        var clsList := scls.value.GetAllSuperClasses(classes, rank);
        ghost var full := SuperChain(classes, rank, Some(first));
        var cur: StructClass? := fcls.value;
        ghost var rest := full;
        while cur != null
          invariant Valid()
          invariant cur == null <==> rest == []
          invariant cur != null ==> cur.info.qualifiedName in classes
          invariant cur != null ==> classes[cur.info.qualifiedName] == cur
          invariant cur != null ==> rest == SuperChain(classes, rank, Some(cur.info.qualifiedName))
          invariant FirstIn(rest, clsList) == FirstIn(full, clsList)
          decreases |rest|
        {
          if cur in clsList {
            return Some(cur);
          }
          ghost var name := cur.info.qualifiedName;
          if cur.info.superClass.Some? && cur.info.superClass.value in classes {
            var sup := cur.info.superClass.value;
            cur := classes[sup];
            rest := rest[1..];
          } else {
            cur := null;
            rest := [];
          }
        }
      }
      return None;
    }

    /**
     * `loadAbstractMetadata(text)`: files the slot names of each line's parameters; a line
     * that names more parameters than its descriptor has stops the loading with an error.
     */
    method LoadAbstractMetadata(text: string, stackSizes: string -> seq<nat>) returns (r: Outcome)
      modifies this
      ensures classes == old(classes) && rank == old(rank)
      ensures Loaded(abstractNames, r) == LoadLines(old(abstractNames), Split(text, '\n'), stackSizes)
    {
      var lines := Split(text, '\n');
      var i := 0;
      while i < |lines|
        invariant 0 <= i <= |lines|
        invariant classes == old(classes) && rank == old(rank)
        invariant LoadLines(abstractNames, lines[i..], stackSizes)
          == LoadLines(old(abstractNames), lines, stackSizes)
      {
        var pts := Split(lines[i], ' ');
        assert lines[i..][1..] == lines[i + 1..];
        if |pts| >= 4 {
          var params := CollectSlotNames(pts[3..], stackSizes(pts[2]));
          if params.None? {
            return Fail("IndexOutOfBoundsException");
          }
          abstractNames := abstractNames[MetadataKey(pts[0], pts[1], pts[2]) := params.value];
        }
        i := i + 1;
      }
      return Pass;
    }

    /**
     * `renameAbstractParameter(...)`: the filed name of slot `index`, or `default` when no
     * entry exists or the index is past its end.  A negative index with an entry fails, as
     * `List.get` does.
     */
    function RenameAbstractParameter(className: string, methodName: string, descriptor: string,
                                     index: int, default: string): (r: Result<string>)
      reads this
      ensures var key := MetadataKey(className, methodName, descriptor);
              (key !in abstractNames || index >= |abstractNames[key]| ==> r == Success(default)) &&
              (key in abstractNames && 0 <= index < |abstractNames[key]| ==> r == Success(abstractNames[key][index]))
      ensures r.Failure? ==> index < 0
    {
      var key := MetadataKey(className, methodName, descriptor);
      if key in abstractNames && index < |abstractNames[key]| then
        if index < 0 then Failure("IndexOutOfBoundsException") else Success(abstractNames[key][index])
      else Success(default)
    }
  }

  /** The parameter loop of `loadAbstractMetadata`: each name repeated for its parameter's
    * stack size; nothing when there are more names than parameters. */
  method CollectSlotNames(names: seq<string>, sizes: seq<nat>) returns (params: Option<seq<string>>)
    ensures |names| > |sizes| ==> params.None?
    ensures |names| <= |sizes| ==> params == Some(SlotNames(names, sizes))
  {
    var slots: seq<string> := [];
    var x := 0;
    while x < |names|
      invariant 0 <= x <= |names|
      invariant x <= |sizes| && slots == SlotNames(names[..x], sizes)
    {
      if x >= |sizes| {
        return None;
      }
      var y := 0;
      while y < sizes[x]
        invariant 0 <= y <= sizes[x]
        invariant slots == SlotNames(names[..x], sizes) + Repeat(names[x], y)
      {
        slots := slots + [names[x]];
        y := y + 1;
      }
      assert names[..x + 1][..x] == names[..x];
      x := x + 1;
    }
    assert names[..|names|] == names;
    return Some(slots);
  }

  /**
   * After a single line `class method desc names...` is loaded into an empty table, renaming
   * any slot of parameter `x` gives that parameter's name, and a slot past the last
   * parameter gives the default.
   */
  lemma {:induction false} LoadedLineRenames(line: string, stackSizes: string -> seq<nat>,
      x: nat, slot: int, default: string)
    requires var pts := Split(line, ' ');
      |pts| >= 4 && |pts| - 3 <= |stackSizes(pts[2])| && x < |pts| - 3 &&
      Offset(stackSizes(pts[2]), x) <= slot < Offset(stackSizes(pts[2]), x) + stackSizes(pts[2])[x]
    ensures var pts := Split(line, ' ');
      var loaded := LoadLines(map[], [line], stackSizes);
      loaded.outcome == Pass &&
      MetadataKey(pts[0], pts[1], pts[2]) in loaded.names &&
      0 <= slot < |loaded.names[MetadataKey(pts[0], pts[1], pts[2])]| &&
      loaded.names[MetadataKey(pts[0], pts[1], pts[2])][slot] == pts[3 + x]
  {
    var pts := Split(line, ' ');
    SlotNamesCoverParameters(pts[3..], stackSizes(pts[2]), x, slot);
  }
}
