/** ArrayDeque and ListDeque (Deque.hpp): a mutable sequence of either storage, open at
    both ends. PushFront prepends and PushBack appends; PopFront and PopBack refuse an
    empty deque with the storage's empty error.

    PopBack in Deque.hpp only decrements the sequence's `size`. That member is private
    to MutableArraySequence and to MutableListSequence, so neither PopBack compiles
    as written; the model reads `size--` as if it were accessible. For an array that
    counter is the whole logical length, so the last element goes and its slot stays
    as spare capacity. For a list it is the cached counter that GetLast reads, and the
    node stays in the list: `ListPopBackAsWritten` models that reading, and `PopBack`
    removes the node as the deque evidently intends. */
module Deque {
  import opened Errors
  import Sequences
  import ArraySequence
  import ListSequence

  datatype Deque<T> = Deque(s: Sequences.Sequence<T>) {

    predicate Valid() {
      s.Valid() && s.variant == Sequences.Mutable
    }

    /** Front first, back last. */
    function Elements(): seq<T>
      requires Valid()
    {
      s.Elements()
    }
  }

  function PushFront<T>(d: Deque<T>, x: T): (r: Deque<T>)
    requires d.Valid()
    ensures r.Valid() && r.Elements() == [x] + d.Elements()
    ensures r.s.ArrayBacked? == d.s.ArrayBacked?
  {
    Deque(Sequences.Prepend(d.s, x))
  }

  function PushBack<T>(d: Deque<T>, x: T, blank: T): (r: Deque<T>)
    requires d.Valid()
    ensures r.Valid() && r.Elements() == d.Elements() + [x]
    ensures r.s.ArrayBacked? == d.s.ArrayBacked?
  {
    Deque(Sequences.Append(d.s, x, blank))
  }

  function Front<T>(d: Deque<T>): (r: Result<T>)
    requires d.Valid()
    ensures r.Err? <==> d.Elements() == []
    ensures r.Err? ==> r.error == Sequences.EmptyError(d.s)
    ensures r.Ok? ==> r.value == d.Elements()[0]
  {
    Sequences.GetFirst(d.s)
  }

  function Back<T>(d: Deque<T>): (r: Result<T>)
    requires d.Valid()
    ensures r.Err? <==> d.Elements() == []
    ensures r.Err? ==> r.error == Sequences.EmptyError(d.s)
    ensures r.Ok? ==> r.value == d.Elements()[|d.Elements()| - 1]
  {
    Sequences.GetLast(d.s)
  }

  /** `PopFront()`: the front element, and the deque without it. */
  function PopFront<T>(d: Deque<T>): (r: Result<(T, Deque<T>)>)
    requires d.Valid()
    ensures r.Err? <==> d.Elements() == []
    ensures r.Err? ==> r.error == Sequences.EmptyError(d.s)
    ensures r.Ok? ==> r.value.0 == d.Elements()[0]
    ensures r.Ok? ==> r.value.1.Valid() && r.value.1.Elements() == d.Elements()[1..]
    ensures r.Ok? ==> r.value.1.s.ArrayBacked? == d.s.ArrayBacked?
  {
    if Sequences.IsEmpty(d.s) then Err(Sequences.EmptyError(d.s))
    else
      var item := Sequences.GetFirst(d.s).value;
      var rest := Sequences.Remove(d.s, 0).value;
      assert rest.Elements() == d.Elements()[1..];
      Ok((item, Deque(rest)))
  }

  /** `PopBack()`: the back element, and the deque without it. An array deque keeps its
      buffer and only shortens its length; a list deque unlinks its last node. */
  function PopBack<T>(d: Deque<T>): (r: Result<(T, Deque<T>)>)
    requires d.Valid()
    ensures r.Err? <==> d.Elements() == []
    ensures r.Err? ==> r.error == Sequences.EmptyError(d.s)
    ensures r.Ok? ==> r.value.0 == d.Elements()[|d.Elements()| - 1]
    ensures r.Ok? ==> r.value.1.Valid() && r.value.1.Elements() == d.Elements()[..|d.Elements()| - 1]
    ensures r.Ok? ==> r.value.1.s.ArrayBacked? == d.s.ArrayBacked?
    ensures r.Ok? && d.s.ArrayBacked? ==> r.value.1.s.arr.items == d.s.arr.items
  {
    if Sequences.IsEmpty(d.s) then Err(Sequences.EmptyError(d.s))
    else
      var item := Sequences.GetLast(d.s).value;
      match d.s
      case ArrayBacked(v, a) =>
        var shorter := ArraySequence.ArraySeq(a.items, a.size - 1);
        assert shorter.Elements() == a.Elements()[..a.size - 1];
        Ok((item, Deque(Sequences.ArrayBacked(v, shorter))))
      case ListBacked(_, _) =>
        var rest := Sequences.Remove(d.s, Sequences.GetLength(d.s) - 1).value;
        assert rest.Elements() == d.Elements()[..|d.Elements()| - 1];
        Ok((item, Deque(rest)))
  }

  /** ListDeque's PopBack as written, with the private counter taken as accessible: the
      emptiness check asks the list, the value comes from GetLast, and only the cached
      counter goes down. The list keeps every node. */
  function ListPopBackAsWritten<T>(l: ListSequence.ListSeq<T>): (r: Result<(T, ListSequence.ListSeq<T>)>)
    ensures l.Elements() == [] ==> r == Err(EmptyList)
    ensures l.Synced() && l.Elements() != [] ==> r.Ok? && r.value.0 == l.Elements()[|l.Elements()| - 1]
    ensures r.Ok? ==> r.value.1.Elements() == l.Elements() && r.value.1.size == l.size - 1
    ensures r.Ok? && l.Synced() ==> !r.value.1.Synced()
  {
    if ListSequence.GetLength(l) == 0 then Err(EmptyList)
    else
      var item :- ListSequence.GetLast(l);
      Ok((item, ListSequence.ListSeq(l.list, l.size - 1)))
  }

  /** The list-deque test with PopBack as written: Back then reads 'a' as the test
      expects, but the length is still 3, and after pushing 'c' Back reports 'b'. */
  lemma ListPopBackLeavesNode()
    ensures var l := ListSequence.Append(ListSequence.Prepend(ListSequence.Append(ListSequence.Empty(), 'a'), 'z'), 'b');
            var popped := ListPopBackAsWritten(l);
            && popped.Ok? && popped.value.0 == 'b'
            && ListSequence.GetLast(popped.value.1) == Ok('a')
            && ListSequence.GetLength(popped.value.1) == 3
            && ListSequence.GetLast(ListSequence.Append(popped.value.1, 'c')) == Ok('b')
  {
    var l := ListSequence.Append(ListSequence.Prepend(ListSequence.Append(ListSequence.Empty(), 'a'), 'z'), 'b');
    assert l.Elements() == ['z', 'a', 'b'];
    var after := ListSequence.Append(ListPopBackAsWritten(l).value.1, 'c');
    assert after.Elements() == ['z', 'a', 'b', 'c'];
  }

  /** The same steps with PopBack removing the node: after pushing 'c', Back is 'c'. */
  lemma ListPopBackThenPushBack(d: Deque<char>, blank: char)
    requires d.Valid() && d.s.ListBacked? && d.Elements() == []
    ensures var full := PushBack(PushFront(PushBack(d, 'a', blank), 'z'), 'b', blank);
            && Front(full) == Ok('z') && Back(full) == Ok('b')
            && var rest := PopBack(full).value.1;
            && Back(rest) == Ok('a')
            && Sequences.GetLength(rest.s) == 2
            && Back(PushBack(rest, 'c', blank)) == Ok('c')
  {
    var full := PushBack(PushFront(PushBack(d, 'a', blank), 'z'), 'b', blank);
    assert full.Elements() == ['z', 'a', 'b'];
    assert PopBack(full).value.1.Elements() == ['z', 'a'];
  }

  /** Pushing at either end and popping at the same end gives back the item and the
      previous contents. */
  lemma PushPopRoundTrips<T>(d: Deque<T>, x: T, blank: T)
    requires d.Valid()
    ensures PopFront(PushFront(d, x)).Ok?
    ensures PopFront(PushFront(d, x)).value.0 == x
    ensures PopFront(PushFront(d, x)).value.1.Elements() == d.Elements()
    ensures PopBack(PushBack(d, x, blank)).Ok?
    ensures PopBack(PushBack(d, x, blank)).value.0 == x
    ensures PopBack(PushBack(d, x, blank)).value.1.Elements() == d.Elements()
  {
    assert ([x] + d.Elements())[1..] == d.Elements();
    assert (d.Elements() + [x])[..|d.Elements()|] == d.Elements();
  }

  /** The array-deque test: push back 1, push front 0, push back 2, then pop 0 from the
      front and 2 from the back, leaving one element. */
  lemma ArrayDequeScenario(d: Deque<int>, blank: int)
    requires d.Valid() && d.s.ArrayBacked? && d.Elements() == []
    ensures var full := PushBack(PushFront(PushBack(d, 1, blank), 0), 2, blank);
            && Front(full) == Ok(0) && Back(full) == Ok(2)
            && PopFront(full).Ok? && PopFront(full).value.0 == 0
            && var afterFront := PopFront(full).value.1;
            && PopBack(afterFront).Ok? && PopBack(afterFront).value.0 == 2
            && Sequences.GetLength(PopBack(afterFront).value.1.s) == 1
  {
    var full := PushBack(PushFront(PushBack(d, 1, blank), 0), 2, blank);
    assert full.Elements() == [0, 1, 2];
    var afterFront := PopFront(full).value.1;
    assert afterFront.Elements() == [1, 2];
    assert PopBack(afterFront).value.1.Elements() == [1];
  }
}
