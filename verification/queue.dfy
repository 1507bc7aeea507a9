/** ArrayQueue and ListQueue (Queue.hpp): a mutable sequence of either storage whose
    first element is the front. Enqueue appends; Dequeue refuses an empty queue with
    its storage's empty error, then takes the first element off. */
module Queue {
  import opened Errors
  import Sequences

  datatype Queue<T> = Queue(s: Sequences.Sequence<T>) {

    predicate Valid() {
      s.Valid() && s.variant == Sequences.Mutable
    }

    /** Front first. */
    function Elements(): seq<T>
      requires Valid()
    {
      s.Elements()
    }
  }

  function Enqueue<T>(q: Queue<T>, x: T, blank: T): (r: Queue<T>)
    requires q.Valid()
    ensures r.Valid() && r.Elements() == q.Elements() + [x]
    ensures r.s.ArrayBacked? == q.s.ArrayBacked?
  {
    Queue(Sequences.Append(q.s, x, blank))
  }

  /** `Peek()`: the front, through GetFirst, so an empty queue reports its storage's
      empty error. */
  function Peek<T>(q: Queue<T>): (r: Result<T>)
    requires q.Valid()
    ensures r.Err? <==> q.Elements() == []
    ensures r.Err? ==> r.error == Sequences.EmptyError(q.s)
    ensures r.Ok? ==> r.value == q.Elements()[0]
  {
    Sequences.GetFirst(q.s)
  }

  /** `Dequeue()`: the front element, and the queue with the rest moved forward. */
  function Dequeue<T>(q: Queue<T>): (r: Result<(T, Queue<T>)>)
    requires q.Valid()
    ensures r.Err? <==> q.Elements() == []
    ensures r.Err? ==> r.error == Sequences.EmptyError(q.s)
    ensures r.Ok? ==> r.value.0 == q.Elements()[0]
    ensures r.Ok? ==> r.value.1.Valid() && r.value.1.Elements() == q.Elements()[1..]
    ensures r.Ok? ==> r.value.1.s.ArrayBacked? == q.s.ArrayBacked?
  {
    if Sequences.IsEmpty(q.s) then Err(Sequences.EmptyError(q.s))
    else
      var item := Sequences.GetFirst(q.s).value;
      var rest := Sequences.Remove(q.s, 0).value;
      assert rest.Elements() == q.Elements()[1..];
      Ok((item, Queue(rest)))
  }

  /** Dequeues `n` times, collecting the items in the order they came off. */
  function DequeueMany<T>(q: Queue<T>, n: nat): (r: Result<(seq<T>, Queue<T>)>)
    requires q.Valid()
    decreases n
    ensures r.Ok? ==> r.value.1.Valid() && |r.value.0| == n
  {
    if n == 0 then Ok(([], q))
    else
      var (front, rest) :- Dequeue(q);
      var (more, back) :- DequeueMany(rest, n - 1);
      Ok(([front] + more, back))
  }

  /** First in, first out: dequeuing as many items as stand before `post` gives them back
      in the same order, and leaves `post`. */
  lemma {:induction false} DequeueManyInOrder<T>(q: Queue<T>, xs: seq<T>, post: seq<T>)
    requires q.Valid() && q.Elements() == xs + post
    decreases |xs|
    ensures DequeueMany(q, |xs|).Ok?
    ensures DequeueMany(q, |xs|).value.0 == xs
    ensures DequeueMany(q, |xs|).value.1.Elements() == post
  {
    if xs == [] {
      assert xs + post == post;
    } else {
      assert (xs + post)[1..] == xs[1..] + post;
      var (front, rest) := Dequeue(q).value;
      assert front == xs[0];
      assert rest.Elements() == xs[1..] + post;
      DequeueManyInOrder(rest, xs[1..], post);
      assert [xs[0]] + xs[1..] == xs;
    }
  }

  /** Enqueuing an item behind a queue and dequeuing everything gives the old contents
      first and the new item last. */
  lemma EnqueueThenDrain<T>(q: Queue<T>, x: T, blank: T)
    requires q.Valid()
    ensures DequeueMany(Enqueue(q, x, blank), |q.Elements()| + 1).Ok?
    ensures DequeueMany(Enqueue(q, x, blank), |q.Elements()| + 1).value.0 == q.Elements() + [x]
  {
    var e := Enqueue(q, x, blank);
    assert e.Elements() == (q.Elements() + [x]) + [];
    DequeueManyInOrder(e, q.Elements() + [x], []);
  }

  /** The round-robin merge `Clutch` computes: one from each while both last, then the
      rest of the longer one. */
  function Interleave<T>(a: seq<T>, b: seq<T>): (r: seq<T>)
    ensures |r| == |a| + |b|
  {
    if a == [] then b
    else if b == [] then a
    else [a[0], b[0]] + Interleave(a[1..], b[1..])
  }

  /** The first element and the rest of a non-empty sequence, counted as a multiset. */
  lemma HeadAndRest<T>(s: seq<T>)
    requires s != []
    ensures multiset(s) == multiset{s[0]} + multiset(s[1..])
  {
    assert s == [s[0]] + s[1..];
  }

  /** The merge holds every element of both inputs, each as often as they do together. */
  lemma {:induction false} InterleaveKeepsElements<T>(a: seq<T>, b: seq<T>)
    ensures multiset(Interleave(a, b)) == multiset(a) + multiset(b)
  {
    if a != [] && b != [] {
      var rest := Interleave(a[1..], b[1..]);
      InterleaveKeepsElements(a[1..], b[1..]);
      HeadAndRest(a);
      HeadAndRest(b);
      assert Interleave(a, b) == [a[0], b[0]] + rest;
      assert multiset([a[0], b[0]] + rest) == multiset{a[0], b[0]} + multiset(rest);
    }
  }

  /** While both inputs last, position 2i of the merge holds a[i] and position 2i+1
      holds b[i]. */
  lemma {:induction false} InterleavePairAt<T>(a: seq<T>, b: seq<T>, i: nat)
    requires i < |a| && i < |b|
    ensures Interleave(a, b)[2 * i] == a[i]
    ensures Interleave(a, b)[2 * i + 1] == b[i]
  {
    if i > 0 {
      InterleavePairAt(a[1..], b[1..], i - 1);
      assert Interleave(a, b) == [a[0], b[0]] + Interleave(a[1..], b[1..]);
    }
  }

  /** When the first input is the longer, its elements past the second's length follow
      the pairs in order. */
  lemma {:induction false} InterleaveRestOfFirst<T>(a: seq<T>, b: seq<T>, k: nat)
    requires |b| <= k < |a|
    ensures Interleave(a, b)[|b| + k] == a[k]
  {
    if b != [] {
      InterleaveRestOfFirst(a[1..], b[1..], k - 1);
      assert Interleave(a, b) == [a[0], b[0]] + Interleave(a[1..], b[1..]);
    }
  }

  /** When the second input is the longer, its elements past the first's length follow
      the pairs in order. */
  lemma {:induction false} InterleaveRestOfSecond<T>(a: seq<T>, b: seq<T>, k: nat)
    requires |a| <= k < |b|
    ensures Interleave(a, b)[|a| + k] == b[k]
  {
    if a != [] {
      InterleaveRestOfSecond(a[1..], b[1..], k - 1);
      assert Interleave(a, b) == [a[0], b[0]] + Interleave(a[1..], b[1..]);
    }
  }

  /** Extending two equally long inputs by one element each extends the merge by the pair. */
  lemma {:induction false} InterleaveSnoc<T>(a: seq<T>, b: seq<T>, x: T, y: T)
    requires |a| == |b|
    ensures Interleave(a + [x], b + [y]) == Interleave(a, b) + [x, y]
  {
    if a == [] {
      assert a + [x] == [x] && b + [y] == [y];
      assert Interleave([x], [y]) == [x, y] + Interleave([], []);
    } else {
      assert (a + [x])[1..] == a[1..] + [x];
      assert (b + [y])[1..] == b[1..] + [y];
      InterleaveSnoc(a[1..], b[1..], x, y);
    }
  }

  /** The merge is the merge of the common-length prefixes followed by both remainders,
      at most one of which is non-empty. */
  lemma {:induction false} InterleaveSplit<T>(a: seq<T>, b: seq<T>)
    ensures var m := if |a| < |b| then |a| else |b|;
            Interleave(a, b) == Interleave(a[..m], b[..m]) + a[m..] + b[m..]
  {
    if a == [] {
      assert a[..0] == [] && b[..0] == [] && b[0..] == b;
    } else if b == [] {
      assert a[..0] == [] && b[..0] == [] && a[0..] == a;
    } else {
      var m := if |a| < |b| then |a| else |b|;
      InterleaveSplit(a[1..], b[1..]);
      assert a[..m][1..] == a[1..][..m - 1];
      assert b[..m][1..] == b[1..][..m - 1];
      assert a[1..][m - 1..] == a[m..];
      assert b[1..][m - 1..] == b[m..];
    }
  }

  /** Enqueues `src`'s elements lo..hi-1 behind `q`, reading each with `Get`, as the
      loops of Clutch and Concat do. */
  method EnqueueRange<T>(q: Queue<T>, src: Queue<T>, lo: nat, hi: nat, blank: T) returns (r: Queue<T>)
    requires q.Valid() && src.Valid()
    requires lo <= hi <= |src.Elements()|
    ensures r.Valid() && r.s.ArrayBacked? == q.s.ArrayBacked?
    ensures r.Elements() == q.Elements() + src.Elements()[lo..hi]
  {
    r := q;
    var i := lo;
    while i < hi
      invariant lo <= i <= hi
      invariant r.Valid() && r.s.ArrayBacked? == q.s.ArrayBacked?
      invariant r.Elements() == q.Elements() + src.Elements()[lo..i]
    {
      r := Enqueue(r, Sequences.Get(src.s, i).value, blank);
      assert src.Elements()[lo..i + 1] == src.Elements()[lo..i] + [src.Elements()[i]];
      i := i + 1;
    }
  }

  /** One more position of two inputs adds its pair to the merge of the prefixes. */
  lemma InterleavePrefixStep<T>(xs: seq<T>, ys: seq<T>, i: nat)
    requires i < |xs| && i < |ys|
    ensures Interleave(xs[..i + 1], ys[..i + 1]) == Interleave(xs[..i], ys[..i]) + [xs[i], ys[i]]
  {
    assert xs[..i + 1] == xs[..i] + [xs[i]];
    assert ys[..i + 1] == ys[..i] + [ys[i]];
    InterleaveSnoc(xs[..i], ys[..i], xs[i], ys[i]);
  }

  /** One round of Clutch's first loop: enqueue `a`'s element at `i`, then `b`'s. */
  method EnqueuePair<T>(q: Queue<T>, a: Queue<T>, b: Queue<T>, i: nat, blank: T) returns (r: Queue<T>)
    requires q.Valid() && a.Valid() && b.Valid()
    requires i < |a.Elements()| && i < |b.Elements()|
    ensures r.Valid() && r.s.ArrayBacked? == q.s.ArrayBacked?
    ensures r.Elements() == q.Elements() + [a.Elements()[i], b.Elements()[i]]
  {
    var x := Sequences.Get(a.s, i).value;
    var y := Sequences.Get(b.s, i).value;
    var withX := Enqueue(q, x, blank);
    r := Enqueue(withX, y, blank);
    assert r.Elements() == (q.Elements() + [x]) + [y];
  }

  /** The first loop of Clutch: for each of the first `n` positions, enqueue the
      receiver's element and then the argument's. */
  method EnqueuePairs<T>(q: Queue<T>, a: Queue<T>, b: Queue<T>, n: nat, blank: T) returns (r: Queue<T>)
    requires q.Valid() && a.Valid() && b.Valid()
    requires n <= |a.Elements()| && n <= |b.Elements()|
    ensures r.Valid() && r.s.ArrayBacked? == q.s.ArrayBacked?
    ensures r.Elements() == q.Elements() + Interleave(a.Elements()[..n], b.Elements()[..n])
  {
    ghost var xs := a.Elements();
    ghost var ys := b.Elements();
    r := q;
    var i := 0;
    assert xs[..0] == [] && ys[..0] == [];
    assert q.Elements() + Interleave(xs[..0], ys[..0]) == q.Elements();
    while i < n
      invariant 0 <= i <= n
      invariant r.Valid() && r.s.ArrayBacked? == q.s.ArrayBacked?
      invariant r.Elements() == q.Elements() + Interleave(xs[..i], ys[..i])
    {
      r := EnqueuePair(r, a, b, i, blank);
      InterleavePrefixStep(xs, ys, i);
      i := i + 1;
    }
  }

  /** `Clutch(other)`: a new queue of the receiver's storage holding both queues merged
      round-robin, receiver first. The argument is always an array queue. */
  method Clutch<T>(q: Queue<T>, other: Queue<T>, blank: T) returns (r: Queue<T>)
    requires q.Valid() && other.Valid() && other.s.ArrayBacked?
    ensures r.Valid() && r.s.ArrayBacked? == q.s.ArrayBacked?
    ensures r.Elements() == Interleave(q.Elements(), other.Elements())
  {
    var len1 := Sequences.GetLength(q.s);
    var len2 := Sequences.GetLength(other.s);
    var minLen := if len1 < len2 then len1 else len2;
    var pairs := EnqueuePairs(Queue(Sequences.EmptyLike(q.s)), q, other, minLen, blank);
    var rest1 := EnqueueRange(pairs, q, minLen, len1, blank);
    r := EnqueueRange(rest1, other, minLen, len2, blank);
    assert pairs.Elements() == Interleave(q.Elements()[..minLen], other.Elements()[..minLen]);
    assert q.Elements()[minLen..len1] == q.Elements()[minLen..];
    assert other.Elements()[minLen..len2] == other.Elements()[minLen..];
    InterleaveSplit(q.Elements(), other.Elements());
  }

  /** `ListQueue::Concat(ArrayQueue)`: a copy of the list queue with the array queue's
      elements enqueued behind it, one by one. */
  method ConcatArrayQueue<T>(q: Queue<T>, other: Queue<T>, blank: T) returns (r: Queue<T>)
    requires q.Valid() && q.s.ListBacked?
    requires other.Valid() && other.s.ArrayBacked?
    ensures r.Valid() && r.s.ListBacked?
    ensures r.Elements() == q.Elements() + other.Elements()
  {
    r := EnqueueRange(q, other, 0, Sequences.GetLength(other.s), blank);
    assert other.Elements()[0..|other.Elements()|] == other.Elements();
  }

  /** The documented example of Clutch. */
  lemma ClutchExample()
    ensures Interleave([1, 2, 3], [10, 20]) == [1, 10, 2, 20, 3]
  {
    assert Interleave([3], []) == [3];
    assert [2, 3][1..] == [3] && [20][1..] == [];
    assert Interleave([2, 3], [20]) == [2, 20, 3];
    assert [1, 2, 3][1..] == [2, 3] && [10, 20][1..] == [20];
  }

  /** The queue tests: enqueue three items, the first is at the front, dequeuing it
      leaves the second at index 0. */
  lemma QueueScenario(empty: Queue<int>, blank: int, x: int, y: int, z: int)
    requires empty.Valid() && empty.Elements() == []
    ensures var q := Enqueue(Enqueue(Enqueue(empty, x, blank), y, blank), z, blank);
            && Sequences.GetLength(q.s) == 3
            && Peek(q) == Ok(x)
            && Dequeue(q).Ok? && Dequeue(q).value.0 == x
            && Sequences.Get(Dequeue(q).value.1.s, 0) == Ok(y)
  {
    var q := Enqueue(Enqueue(Enqueue(empty, x, blank), y, blank), z, blank);
    assert q.Elements() == [x, y, z];
    assert Dequeue(q).value.1.Elements() == [y, z];
  }
}
