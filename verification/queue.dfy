/** The generic queue of utils/queue.go: a slice whose first element is the front. */
module Queue {
  import opened Wrappers

  datatype Queue<T> = Queue(elements: seq<T>)

  function New<T>(): Queue<T> { Queue([]) }

  /** `Push`: append at the back. */
  function Push<T>(q: Queue<T>, x: T): Queue<T> { Queue(q.elements + [x]) }

  /** `PushTop`: prepend at the front, so it is the next value out. */
  function PushTop<T>(q: Queue<T>, x: T): Queue<T> { Queue([x] + q.elements) }

  /** `Top`: the front element, absent (Go: zero value, false) when empty. */
  function Top<T>(q: Queue<T>): (r: Option<T>)
    ensures r.None? <==> |q.elements| == 0
    ensures r.Some? ==> r.value == q.elements[0]
  {
    if |q.elements| > 0 then Some(q.elements[0]) else None
  }

  /** `Pop`: the front element and the rest; an empty queue is returned unchanged. */
  function Pop<T>(q: Queue<T>): (r: (Option<T>, Queue<T>))
    ensures r.0 == Top(q)
    ensures r.0.None? ==> r.1 == q
    ensures r.0.Some? ==> q.elements == [r.0.value] + r.1.elements
  {
    if |q.elements| > 0 then (Some(q.elements[0]), Queue(q.elements[1..])) else (None, q)
  }

  predicate IsEmpty<T>(q: Queue<T>) { |q.elements| == 0 }

  function Inner<T>(q: Queue<T>): seq<T> { q.elements }

  /** Pushes every value of xs at the back, in order. */
  function PushAll<T>(q: Queue<T>, xs: seq<T>): (r: Queue<T>)
    decreases |xs|
  {
    if |xs| == 0 then q else PushAll(Push(q, xs[0]), xs[1..])
  }

  /** Pops n times, collecting the values in the order they come off. */
  function PopN<T>(q: Queue<T>, n: nat): (seq<T>, Queue<T>)
    decreases n
  {
    if n == 0 then ([], q)
    else
      var (v, rest) := Pop(q);
      var (vs, final) := PopN(rest, n - 1);
      (if v.Some? then [v.value] + vs else vs, final)
  }

  lemma {:induction false} PushAllAppends<T>(q: Queue<T>, xs: seq<T>)
    ensures PushAll(q, xs).elements == q.elements + xs
    decreases |xs|
  {
    if |xs| > 0 {
      PushAllAppends(Push(q, xs[0]), xs[1..]);
      assert q.elements + [xs[0]] + xs[1..] == q.elements + xs;
    }
  }

  lemma {:induction false} PopNTakesPrefix<T>(q: Queue<T>, n: nat)
    requires n <= |q.elements|
    ensures PopN(q, n) == (q.elements[..n], Queue(q.elements[n..]))
    decreases n
  {
    if n > 0 {
      PopNTakesPrefix(Queue(q.elements[1..]), n - 1);
      assert q.elements[1..][..n - 1] == q.elements[1..n];
      assert [q.elements[0]] + q.elements[1..n] == q.elements[..n];
      assert q.elements[1..][n - 1..] == q.elements[n..];
    }
  }

  /** FIFO: values pushed onto an empty queue come out of Pop in push order, leaving it empty. */
  lemma FifoOrder<T>(xs: seq<T>)
    ensures PopN(PushAll(New<T>(), xs), |xs|) == (xs, New<T>())
  {
    var q := PushAll(New<T>(), xs);
    PushAllAppends(New<T>(), xs);
    assert q == Queue(xs);
    PopNTakesPrefix(q, |xs|);
    assert xs[..|xs|] == xs && xs[|xs|..] == [];
  }

  /** After PushTop(x), the next Pop returns x and the previous queue. */
  lemma PushTopThenPop<T>(q: Queue<T>, x: T)
    ensures Pop(PushTop(q, x)) == (Some(x), q)
  {
    assert ([x] + q.elements)[1..] == q.elements;
  }

  /** Push leaves the front alone unless the queue was empty. */
  lemma PushKeepsFront<T>(q: Queue<T>, x: T)
    ensures Top(Push(q, x)) == if IsEmpty(q) then Some(x) else Top(q)
  {
  }

  /** Pop and Top on an empty queue report absence and change nothing. */
  lemma EmptyQueueUnchanged<T>(q: Queue<T>)
    requires IsEmpty(q)
    ensures Pop(q) == (None, q) && Top(q) == None
  {
  }
}
