/**
 * `ListStack<T>`: a linked list used as a stack whose top is the END of the list.  The list
 * is a field of type `seq` that every method reassigns.  Calls that throw in Java
 * (`removeLast` on an empty list, `get`/`add` at a bad index) return a failure instead.
 */
module ListStacks {
  import opened Wrappers

  /** Java's `int`. */
  type Int32 = x: int | -0x8000_0000 <= x < 0x8000_0000

  class ListStack<T> {
    /** The list, bottom first. */
    var items: seq<T>

    /** `new ListStack<>()`. */
    constructor ()
      ensures items == []
    {
      items := [];
    }

    /** `new ListStack<>(list)`: a copy of `list`. */
    constructor FromList(list: seq<T>)
      ensures items == list
    {
      items := list;
    }

    /** `clone()`: a new stack with the same elements; this one is not touched. */
    method Clone() returns (c: ListStack<T>)
      ensures fresh(c)
      ensures c.items == items
    {
      c := new ListStack.FromList(items);
    }

    /** `push(item)`: `add` appends at the top. */
    method Push(item: T)
      modifies this
      ensures items == old(items) + [item]
    {
      items := items + [item];
    }

    /** `pop()`: `removeLast`, which throws `NoSuchElementException` on an empty list. */
    method Pop() returns (r: Result<T>)
      modifies this
      ensures old(items) == [] ==> r.Failure? && items == []
      ensures old(items) != [] ==>
        r == Success(old(items)[|old(items)| - 1]) && items == old(items)[..|old(items)| - 1]
    {
      if items == [] {
        r := Failure("NoSuchElementException");
      } else {
        r := Success(items[|items| - 1]);
        items := items[..|items| - 1];
      }
    }

    /**
     * `pop(count)`: pops `count` times and returns the last element popped, the deepest of
     * them; `null` when `count <= 0`.  With fewer than `count` elements the pop that finds
     * the list empty throws, after the earlier pops have emptied it.
     */
    method PopCount(count: Int32) returns (r: Result<Option<T>>)
      modifies this
      ensures count <= 0 ==> r == Success(None) && items == old(items)
      ensures 0 < count <= |old(items)| ==>
        r == Success(Some(old(items)[|old(items)| - count])) &&
        items == old(items)[..|old(items)| - count]
      ensures count > |old(items)| ==> r.Failure? && items == []
    {
      var o: Option<T> := None;
      var i := count;
      while i > 0
        invariant count <= 0 ==> i == count && items == old(items) && o == None
        invariant count > 0 ==> 0 <= i <= count && count - i <= |old(items)|
        invariant count > 0 ==> items == old(items)[..|old(items)| - (count - i)]
        invariant count > 0 && i < count ==> o == Some(old(items)[|old(items)| - (count - i)])
      {
        var popped := Pop();
        if popped.Failure? {
          return Failure(popped.error);
        }
        o := Some(popped.value);
        i := i - 1;
      }
      r := Success(o);
    }

    /** `removeMultiple(count)`: `pop(count)` with the value dropped. */
    method RemoveMultiple(count: Int32) returns (r: Outcome)
      modifies this
      ensures count <= 0 ==> r == Pass && items == old(items)
      ensures 0 < count <= |old(items)| ==> r == Pass && items == old(items)[..|old(items)| - count]
      ensures count > |old(items)| ==> r.Fail? && items == []
    {
      var popped := PopCount(count);
      r := if popped.Failure? then Fail(popped.error) else Pass;
    }

    /** `getByOffset(offset)`: `get(size() + offset)`, so `-1` is the top; an index outside
      * the list throws `IndexOutOfBoundsException`. */
    method GetByOffset(offset: Int32) returns (r: Result<T>)
      ensures 0 <= |items| + offset < |items| ==> r == Success(items[|items| + offset])
      ensures !(0 <= |items| + offset < |items|) ==> r.Failure?
    {
      var index := |items| + offset;
      if 0 <= index < |items| {
        r := Success(items[index]);
      } else {
        r := Failure("IndexOutOfBoundsException");
      }
    }

    /** `insertByOffset(offset, item)`: `add(size() + offset, item)`; offset `0` pushes,
      * `-1` slides the item under the top.  `add` accepts indices `0..size()`. */
    method InsertByOffset(offset: Int32, item: T) returns (r: Outcome)
      modifies this
      ensures 0 <= |old(items)| + offset <= |old(items)| ==>
        r == Pass &&
        items == old(items)[..|old(items)| + offset] + [item] + old(items)[|old(items)| + offset..]
      ensures !(0 <= |old(items)| + offset <= |old(items)|) ==> r.Fail? && items == old(items)
    {
      var index := |items| + offset;
      if 0 <= index <= |items| {
        items := items[..index] + [item] + items[index..];
        r := Pass;
      } else {
        r := Fail("IndexOutOfBoundsException");
      }
    }
  }

  /** A push undone by a pop: the pushed item comes back and the list is as it was. */
  method PushThenPop<T>(s: ListStack<T>, x: T) returns (r: Result<T>)
    modifies s
    ensures r == Success(x) && s.items == old(s.items)
  {
    s.Push(x);
    r := s.Pop();
  }

  /** `insertByOffset(0, x)` has the effect of `push(x)`. */
  method InsertAtZeroPushes<T>(s: ListStack<T>, x: T) returns (r: Outcome)
    modifies s
    ensures r == Pass && s.items == old(s.items) + [x]
  {
    r := s.InsertByOffset(0, x);
  }

  /** A clone is independent of the original: pushing on the clone leaves the original as
    * it was. */
  method CloneIsIndependent<T>(s: ListStack<T>, x: T) returns (c: ListStack<T>)
    ensures fresh(c) && c.items == s.items + [x]
    ensures s.items == old(s.items)
  {
    c := s.Clone();
    c.Push(x);
  }
}
