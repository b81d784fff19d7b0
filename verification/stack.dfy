/** The generic LIFO stack of utils/stack.go: a slice whose last element is the top. */
module Stack {
  import opened Wrappers

  datatype Stack<T> = Stack(elements: seq<T>)

  function New<T>(): Stack<T> { Stack([]) }

  function Push<T>(s: Stack<T>, x: T): (r: Stack<T>)
    ensures |r.elements| == |s.elements| + 1
  {
    Stack(s.elements + [x])
  }

  /** `Top`: the most recently pushed element, absent (Go: zero value, false) when empty. */
  function Top<T>(s: Stack<T>): (r: Option<T>)
    ensures r.None? <==> |s.elements| == 0
    ensures r.Some? ==> r.value == s.elements[|s.elements| - 1]
  {
    if |s.elements| > 0 then Some(s.elements[|s.elements| - 1]) else None
  }

  /** `Pop`: the top element and the stack without it; an empty stack is returned unchanged. */
  function Pop<T>(s: Stack<T>): (r: (Option<T>, Stack<T>))
    ensures r.0 == Top(s)
    ensures r.0.None? ==> r.1 == s
    ensures r.0.Some? ==> s.elements == r.1.elements + [r.0.value]
  {
    if |s.elements| > 0 then (Some(s.elements[|s.elements| - 1]), Stack(s.elements[..|s.elements| - 1]))
    else (None, s)
  }

  predicate IsEmpty<T>(s: Stack<T>) { |s.elements| == 0 }

  /** `Inner`: the backing slice itself.  Go hands out the same storage, so a
      caller that rewrites the returned slice in place rewrites the stack; such a
      caller builds the new `Stack` from the rewritten sequence. */
  function Inner<T>(s: Stack<T>): seq<T> { s.elements }

  /** Push followed by Pop gives back the pushed value and the previous stack. */
  lemma PushThenPop<T>(s: Stack<T>, x: T)
    ensures Pop(Push(s, x)) == (Some(x), s)
    ensures Top(Push(s, x)) == Some(x)
  {
    assert (s.elements + [x])[..|s.elements|] == s.elements;
  }

  /** Pop and Top on an empty stack report absence and change nothing. */
  lemma EmptyStackUnchanged<T>(s: Stack<T>)
    requires IsEmpty(s)
    ensures Pop(s) == (None, s) && Top(s) == None
  {
  }

  /** Pushing n values and popping n times returns them newest first and restores the stack. */
  lemma {:induction false} PushAllPopAll<T>(s: Stack<T>, xs: seq<T>)
    ensures PopN(PushAll(s, xs), |xs|) == (Reverse(xs), s)
  {
    if |xs| == 0 {
    } else {
      var init := xs[..|xs| - 1];
      var last := xs[|xs| - 1];
      assert xs == init + [last];
      PushThenPop(PushAll(s, init), last);
      PushAllPopAll(s, init);
      assert Reverse(xs) == [last] + Reverse(init);
    }
  }

  function PushAll<T>(s: Stack<T>, xs: seq<T>): Stack<T>
  {
    if |xs| == 0 then s else Push(PushAll(s, xs[..|xs| - 1]), xs[|xs| - 1])
  }

  /** Pops n times, collecting the values in the order they come off. */
  function PopN<T>(s: Stack<T>, n: nat): (seq<T>, Stack<T>)
    decreases n
  {
    if n == 0 then ([], s)
    else
      var (v, rest) := Pop(s);
      var (vs, final) := PopN(rest, n - 1);
      (if v.Some? then [v.value] + vs else vs, final)
  }

  function Reverse<T>(xs: seq<T>): (r: seq<T>)
    ensures |r| == |xs|
    ensures forall i :: 0 <= i < |xs| ==> r[i] == xs[|xs| - 1 - i]
  {
    if |xs| == 0 then [] else [xs[|xs| - 1]] + Reverse(xs[..|xs| - 1])
  }
}
