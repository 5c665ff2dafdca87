/** `findFirstBlock`: where the declaration of a slot is looked for. */
module VarFirstBlock {
  import opened Wrappers
  import opened Exprents
  import opened Statements
  import opened VarInit

  // ---------------------------------------------------------------------------------------
  // findFirstBlock

  /** The worklist of `findFirstBlock`: statements with their paths from where the search
    * starts. */
  type Worklist = seq<(seq<nat>, Statement)>

  function WorkSize(stack: Worklist): nat
  {
    if |stack| == 0 then 0 else Statements.Size(stack[0].1) + WorkSize(stack[1..])
  }

  lemma WorkSizeOne(x: (seq<nat>, Statement))
    ensures WorkSize([x]) == Statements.Size(x.1)
  {
    assert [x][1..] == [];
  }

  /** A statement's children, each with its path. */
  function Tagged(p: seq<nat>, stats: seq<Statement>): (r: Worklist)
    ensures |r| == |stats| && forall k :: 0 <= k < |r| ==> r[k] == (p + [k], stats[k])
  {
    seq(|stats|, k requires 0 <= k < |stats| => (p + [k], stats[k]))
  }

  lemma {:induction false} TaggedSize(p: seq<nat>, stats: seq<Statement>, i: nat)
    requires i <= |stats|
    ensures WorkSize(Tagged(p, stats)[i..]) == SizeAll(stats[i..])
    decreases |stats| - i
  {
    if i < |stats| {
      assert Tagged(p, stats)[i..][1..] == Tagged(p, stats)[i + 1..];
      assert stats[i..][1..] == stats[i + 1..];
      TaggedSize(p, stats, i + 1);
    }
  }

  /** The kinds through which the search descends to the first child. */
  predicate DescendsFirst(k: Kind)
  {
    k.If? || k.Root? || k.Switch? || k.Synchronized?
  }

  /** `findFirstBlock(stat, varindex)` on its worklist: a statement is examined when it is
    * the last one left or when the slot is among its recorded slots (a statement without an
    * entry throws); a labelled statement with others still waiting, or a basic block, is the
    * answer; a sequence replaces the worklist by its children, an if, root, switch or
    * synchronized statement by its first child (a missing one throws), and any other
    * statement is the answer.  `None` when the worklist runs out. */
  function FirstBlock(vars: map<int, set<int>>, index: int, stack: Worklist): Result<Option<seq<nat>>>
    decreases WorkSize(stack)
  {
    if |stack| == 0 then Success(None)
    else
      var p := stack[0].0;
      var st := stack[0].1;
      var rest := stack[1..];
      if |rest| > 0 && st.id !in vars then Failure("NullPointerException")
      else if |rest| == 0 || index in vars[st.id] then
        if st.labeled && |rest| > 0 then Success(Some(p))
        else if st.exprents.Some? then Success(Some(p))
        else if st.kind.Sequence? then
          TaggedSize(p, st.stats, 0);
          assert st.stats[0..] == st.stats && Tagged(p, st.stats)[0..] == Tagged(p, st.stats);
          FirstBlock(vars, index, Tagged(p, st.stats))
        else if DescendsFirst(st.kind) then
          if |st.stats| == 0 then Failure("NullPointerException")
          else
            WorkSizeOne((p + [0], st.stats[0]));
            FirstBlock(vars, index, [(p + [0], st.stats[0])])
        else Success(Some(p))
      else FirstBlock(vars, index, rest)
  }

  /** The search from `stat` with its loop. */
  method FindFirstBlock(vars: map<int, set<int>>, stat: Statement, index: int) returns (r: Result<Option<seq<nat>>>)
    ensures r == FirstBlock(vars, index, [([], stat)])
  {
    var stack: Worklist := [([], stat)];
    while |stack| > 0
      invariant FirstBlock(vars, index, stack) == FirstBlock(vars, index, [([], stat)])
      decreases WorkSize(stack)
    {
      var p := stack[0].0;
      var st := stack[0].1;
      var rest := stack[1..];
      var examine := |rest| == 0;
      if !examine {
        if st.id !in vars {
          return Failure("NullPointerException");
        }
        examine := index in vars[st.id];
      }
      if examine {
        if st.labeled && |rest| > 0 {
          return Success(Some(p));
        }
        if st.exprents.Some? {
          return Success(Some(p));
        }
        if st.kind.Sequence? {
          TaggedSize(p, st.stats, 0);
          assert st.stats[0..] == st.stats && Tagged(p, st.stats)[0..] == Tagged(p, st.stats);
          stack := Tagged(p, st.stats);
        } else if DescendsFirst(st.kind) {
          if |st.stats| == 0 {
            return Failure("NullPointerException");
          }
          WorkSizeOne((p + [0], st.stats[0]));
          stack := [(p + [0], st.stats[0])];
        } else {
          return Success(Some(p));
        }
      } else {
        stack := rest;
      }
    }
    r := Success(None);
  }

  /** Every entry of the worklist is a statement of the tree under `stat`, at its path. */
  ghost predicate Rooted(stat: Statement, stack: Worklist)
  {
    forall i :: 0 <= i < |stack| ==> ValidPath(stat, stack[i].0) && At(stat, stack[i].0) == stack[i].1
  }

  /** What the search stops at: a statement under the start where the descent ends, a basic
    * block, a labelled statement, or a statement it does not descend through. */
  lemma {:induction false} FirstBlockStops(vars: map<int, set<int>>, index: int, stat: Statement, stack: Worklist)
    requires Rooted(stat, stack)
    requires FirstBlock(vars, index, stack).Success? && FirstBlock(vars, index, stack).value.Some?
    ensures var q := FirstBlock(vars, index, stack).value.value;
            ValidPath(stat, q) &&
            (At(stat, q).exprents.Some? || At(stat, q).labeled ||
             !(At(stat, q).kind.Sequence? || DescendsFirst(At(stat, q).kind)))
    decreases WorkSize(stack)
  {
    var p := stack[0].0;
    var st := stack[0].1;
    var rest := stack[1..];
    if |rest| == 0 || index in vars[st.id] {
      if st.labeled && |rest| > 0 {
      } else if st.exprents.Some? {
      } else if st.kind.Sequence? {
        TaggedSize(p, st.stats, 0);
        assert st.stats[0..] == st.stats && Tagged(p, st.stats)[0..] == Tagged(p, st.stats);
        forall k | 0 <= k < |st.stats|
          ensures ValidPath(stat, p + [k]) && At(stat, p + [k]) == st.stats[k]
        {
          AtChild(stat, p, k);
        }
        FirstBlockStops(vars, index, stat, Tagged(p, st.stats));
      } else if DescendsFirst(st.kind) {
        AtChild(stat, p, 0);
        WorkSizeOne((p + [0], st.stats[0]));
        FirstBlockStops(vars, index, stat, [(p + [0], st.stats[0])]);
      }
    } else {
      FirstBlockStops(vars, index, stat, rest);
    }
  }
}
