/**
 * `ArrayStack`: a stack of fixed capacity kept in an array, the top at
 * index `head - 1`, with typed errors for a negative capacity, overflow and
 * underflow, and an iterator that walks from the top down.
 */
module ArrayStack {
  import opened Wrappers

  /** The exceptions the stack throws. */
  datatype StackError = NegativeCapacity | StackOverflow | EmptyStack

  /** `s` read from its last element back to its first. */
  function Reversed<T>(s: seq<T>): (r: seq<T>)
    ensures |r| == |s| && forall i :: 0 <= i < |s| ==> r[i] == s[|s| - 1 - i]
  {
    seq(|s|, i requires 0 <= i < |s| => s[|s| - 1 - i])
  }

  /** Dropping the first element of a reversal is reversing without the last element. */
  lemma ReversedTail<T>(s: seq<T>)
    requires s != []
    ensures Reversed(s)[0] == s[|s| - 1] && Reversed(s)[1..] == Reversed(s[..|s| - 1])
  {
    assert forall i :: 0 <= i < |s| - 1 ==> Reversed(s)[1..][i] == Reversed(s[..|s| - 1])[i];
  }

  class ArrayStack<T(0)> {
    var data: array<T>
    var head: int

    /** The class invariant: the number of elements lies between 0 and the capacity. */
    ghost predicate Valid()
      reads this
    {
      0 <= head <= data.Length
    }

    /** The elements, from the bottom of the stack to its top. */
    ghost function Contents(): seq<T>
      requires Valid()
      reads this, data
    {
      data[..head]
    }

    /** The constructor for a capacity that is not negative: an empty stack. */
    constructor(capacity: nat)
      ensures Valid() && fresh(data) && data.Length == capacity && Contents() == []
    {
      data := new T[capacity];
      head := 0;
    }

    /** The stack a clone starts from: the given array and element count. */
    constructor FromArray(data: array<T>, head: int)
      requires 0 <= head <= data.Length
      ensures this.data == data && this.head == head
    {
      this.data := data;
      this.head := head;
    }

    /** `push`: overflow on a full stack, which stays as it was; otherwise the element becomes the new top. */
    method Push(element: T) returns (outcome: Outcome<StackError>)
      requires Valid()
      modifies this, data
      ensures Valid() && data == old(data)
      ensures old(head) == data.Length ==> outcome == Fail(StackOverflow) && Contents() == old(Contents()) && data[..] == old(data[..])
      ensures old(head) < data.Length ==> outcome == Pass && Contents() == old(Contents()) + [element]
      ensures old(head) < data.Length ==> data[..] == old(data[..])[old(head) := element]
    {
      if head == data.Length {
        return Fail(StackOverflow);
      }
      data[head] := element;
      head := head + 1;
      outcome := Pass;
    }

    /** `pop`: underflow on an empty stack; otherwise the top is removed and returned. */
    method Pop() returns (r: Result<T, StackError>)
      requires Valid()
      modifies this
      ensures Valid() && data == old(data)
      ensures old(Contents()) == [] ==> r == Failure(EmptyStack) && Contents() == old(Contents())
      ensures old(Contents()) != [] ==> r == Success(old(Contents())[old(head) - 1]) && Contents() == old(Contents())[..old(head) - 1]
    {
      if head == 0 {
        return Failure(EmptyStack);
      }
      head := head - 1;
      r := Success(data[head]);
    }

    /** `peek`: underflow on an empty stack; otherwise the top, the stack untouched. */
    method Peek() returns (r: Result<T, StackError>)
      requires Valid()
      ensures Contents() == [] ==> r == Failure(EmptyStack)
      ensures Contents() != [] ==> r == Success(Contents()[|Contents()| - 1])
    {
      if head == 0 {
        return Failure(EmptyStack);
      }
      r := Success(data[head - 1]);
    }

    /** `size`: the number of elements, never more than the capacity. */
    method Size() returns (n: int)
      requires Valid()
      ensures n == |Contents()| && 0 <= n <= data.Length
    {
      n := head;
    }

    /** `isEmpty`: no elements. */
    method IsEmpty() returns (b: bool)
      requires Valid()
      ensures b <==> Contents() == []
    {
      b := head == 0;
    }

    /**
     * `clone`: a new stack over a copy of the whole array, with the same
     * capacity and elements. Elements are values here, so cloning each
     * element is copying it.
     */
    method Clone() returns (stackClone: ArrayStack<T>)
      requires Valid()
      ensures fresh(stackClone) && fresh(stackClone.data)
      ensures stackClone.Valid() && stackClone.data.Length == data.Length && stackClone.Contents() == Contents()
    {
      var copy := new T[data.Length];
      var i := 0;
      while i < data.Length
        invariant 0 <= i <= data.Length
        invariant forall k :: 0 <= k < i ==> copy[k] == data[k]
      {
        copy[i] := data[i];
        i := i + 1;
      }
      stackClone := new ArrayStack.FromArray(copy, head);
      assert stackClone.data[..head] == data[..head];
    }

    /** `iterator`: a fresh iterator positioned at the top. */
    method Iterator() returns (it: StackIterator<T>)
      requires Valid()
      ensures fresh(it) && it.stack == this && it.Valid() && it.Remaining() == Reversed(Contents())
    {
      it := new StackIterator(this);
    }
  }

  /** The negative-capacity check in front of the constructor. */
  method NewArrayStack<T(0)>(capacity: int) returns (r: Result<ArrayStack<T>, StackError>)
    ensures capacity < 0 ==> r == Failure(NegativeCapacity)
    ensures capacity >= 0 ==> r.Success? && fresh(r.value) && fresh(r.value.data)
    ensures capacity >= 0 ==> r.Success? && r.value.Valid() && r.value.data.Length == capacity && r.value.Contents() == []
  {
    if capacity < 0 {
      return Failure(NegativeCapacity);
    }
    var stack := new ArrayStack(capacity);
    r := Success(stack);
  }

  /**
   * `StackIterator`: an index that starts at the top and counts down to 0.
   * It reads the stack's array as it is when `next` is called, so after a
   * `pop` it still yields the popped slot, and after a `push` the new value.
   */
  class StackIterator<T(0)> {
    const stack: ArrayStack<T>
    var index: int

    ghost predicate Valid()
      reads this, stack
    {
      stack.Valid() && -1 <= index < stack.data.Length
    }

    /** What is left to yield: the array slots at and below `index`, from the top down. */
    ghost function Remaining(): seq<T>
      requires Valid()
      reads this, stack, stack.data
    {
      Reversed(stack.data[..index + 1])
    }

    constructor(stack: ArrayStack<T>)
      requires stack.Valid()
      ensures this.stack == stack && Valid() && Remaining() == Reversed(stack.Contents())
    {
      this.stack := stack;
      index := stack.head - 1;
    }

    /** `hasNext`: the index has not passed the bottom. */
    method HasNext() returns (b: bool)
      requires Valid()
      ensures b <==> Remaining() != []
    {
      b := index >= 0;
    }

    /** `next`: the element at the index, which then moves one down. */
    method Next() returns (element: T)
      requires Valid() && Remaining() != []
      modifies this
      ensures Valid()
      ensures element == old(Remaining())[0] && Remaining() == old(Remaining())[1..]
    {
      ReversedTail(stack.data[..index + 1]);
      assert stack.data[..index + 1][..index] == stack.data[..index];
      element := stack.data[index];
      index := index - 1;
    }
  }

  /** An iterator taken before a `pop` still yields the popped element first, as the slot is not cleared. */
  method IteratorAfterPop<T(0)>(stack: ArrayStack<T>) returns (popped: Result<T, StackError>, first: T)
    requires stack.Valid() && stack.Contents() != []
    modifies stack
    ensures popped.Success? && first == popped.value
  {
    var it := stack.Iterator();
    popped := stack.Pop();
    first := it.Next();
  }

  /** A for-each over the stack: it yields exactly its elements, from the top to the bottom. */
  method Elements<T(0)>(stack: ArrayStack<T>) returns (elements: seq<T>)
    requires stack.Valid()
    ensures elements == Reversed(stack.Contents())
  {
    var it := stack.Iterator();
    elements := [];
    var more := it.HasNext();
    while more
      invariant it.Valid() && it.stack == stack
      invariant elements + it.Remaining() == Reversed(stack.Contents())
      invariant more <==> it.Remaining() != []
      decreases |it.Remaining()|
    {
      elements, more := TakeNext(it, elements);
    }
  }

  /** One pass of the for-each: the next element is appended to those already yielded. */
  method TakeNext<T(0)>(it: StackIterator<T>, elements: seq<T>) returns (longer: seq<T>, more: bool)
    requires it.Valid() && it.Remaining() != []
    modifies it
    ensures it.Valid()
    ensures longer + it.Remaining() == elements + old(it.Remaining())
    ensures more <==> it.Remaining() != []
    ensures |it.Remaining()| < old(|it.Remaining()|)
  {
    ghost var before := it.Remaining();
    var element := it.Next();
    assert before == [element] + it.Remaining();
    longer := elements + [element];
    assert longer + it.Remaining() == elements + before;
    more := it.HasNext();
  }

  /** On a stack that is not full, a push followed by a pop returns the element and restores the stack. */
  method PushThenPop<T(0)>(stack: ArrayStack<T>, element: T) returns (r: Result<T, StackError>)
    requires stack.Valid() && stack.head < stack.data.Length
    modifies stack, stack.data
    ensures stack.Valid() && r == Success(element) && stack.Contents() == old(stack.Contents())
  {
    var _ := stack.Push(element);
    r := stack.Pop();
  }
}
