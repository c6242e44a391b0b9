/** `BatchStack<T>` (src/components/data_structures/BatchStack.h): a stack
    that pushes and pops several values at a time. The stack is a sequence
    whose last element is the top. */
module BatchStacks {

  function Reversed<T>(s: seq<T>): (r: seq<T>)
    ensures |r| == |s|
    ensures forall i :: 0 <= i < |s| ==> r[i] == s[|s| - 1 - i]
  {
    if s == [] then [] else Reversed(s[1..]) + [s[0]]
  }

  /** Reversing twice gives the list back. */
  lemma ReversedTwice<T>(s: seq<T>)
    ensures Reversed(Reversed(s)) == s
  {
    var r := Reversed(Reversed(s));
    assert forall i :: 0 <= i < |s| ==> r[i] == s[i];
  }

  /** The number of elements `pop(amount)` takes: a negative amount runs the
      loop zero times. */
  function Taken(amount: int): nat
  {
    if amount < 0 then 0 else amount
  }

  class BatchStack<T> {
    var stack: seq<T>

    constructor ()
      ensures stack == []
    {
      stack := [];
    }

    /** Pushes the values one after another: the last one ends on top. */
    method Push(values: seq<T>)
      modifies this
      ensures stack == old(stack) + values
    {
      var i := 0;
      while i < |values|
        invariant 0 <= i <= |values|
        invariant stack == old(stack) + values[..i]
      {
        stack := stack + [values[i]];
        i := i + 1;
        assert values[..i] == values[..i - 1] + [values[i - 1]];
      }
      assert values[..i] == values;
    }

    /** Pops `amount` values and returns them in the order they were pushed,
        bottom-most first. `top()` on an empty stack is undefined, so there
        must be that many values. */
    method Pop(amount: int) returns (result: seq<T>)
      requires amount <= |stack|
      modifies this
      ensures stack == old(stack)[..|old(stack)| - Taken(amount)]
      ensures result == old(stack)[|old(stack)| - Taken(amount)..]
      ensures (stack, result) == Popped(old(stack), Taken(amount))
    {
      var popped: seq<T> := [];
      var i := 0;
      while i < amount
        invariant 0 <= i <= Taken(amount)
        invariant stack == old(stack)[..|old(stack)| - i]
        invariant popped == Reversed(old(stack)[|old(stack)| - i..])
      {
        var top := stack[|stack| - 1];
        ghost var before := old(stack)[|old(stack)| - i..];
        assert old(stack)[|old(stack)| - (i + 1)..] == [top] + before;
        popped := popped + [top];
        stack := stack[..|stack| - 1];
        i := i + 1;
      }
      ReversedTwice(old(stack)[|old(stack)| - Taken(amount)..]);
      result := Reversed(popped);
    }

    /** Pops the top value. */
    method PopOne() returns (top: T)
      requires |stack| > 0
      modifies this
      ensures top == old(stack)[|old(stack)| - 1]
      ensures stack == old(stack)[..|old(stack)| - 1]
    {
      top := stack[|stack| - 1];
      stack := stack[..|stack| - 1];
    }
  }

  /** What `pop(amount)` leaves and what it returns. */
  function Popped<T>(stack: seq<T>, amount: nat): (r: (seq<T>, seq<T>))
    requires amount <= |stack|
    ensures r.0 + r.1 == stack && |r.1| == amount
  {
    (stack[..|stack| - amount], stack[|stack| - amount..])
  }

  /** Round trip: popping as many values as were pushed returns them in
      order and leaves the stack as it was. */
  lemma PushThenPop<T>(stack: seq<T>, values: seq<T>)
    ensures Popped(stack + values, |values|) == (stack, values)
  {
    assert (stack + values)[..|stack|] == stack;
    assert (stack + values)[|stack|..] == values;
  }

  /** Popping in two batches returns the same values as one batch. */
  lemma PopInTwoBatches<T>(stack: seq<T>, m: nat, n: nat)
    requires m + n <= |stack|
    ensures Popped(stack, m + n).0 == Popped(Popped(stack, n).0, m).0
    ensures Popped(stack, m + n).1 == Popped(Popped(stack, n).0, m).1 + Popped(stack, n).1
  {
    var k := |stack|;
    assert stack[k - (m + n)..] == stack[k - (m + n)..k - n] + stack[k - n..];
  }
}
