/** The list-backed sequence (MutableListSequence in ListSequence.hpp): a linked list
    plus a cached element counter `size`.

    The counter is read only by GetLast, which walks to index `size - 1`; GetLength
    asks the list itself. Every mutator is meant to keep the counter equal to the
    list's length (`Synced`). InsertAt as written forgets to increment it, which is
    modelled as `InsertAtAsWritten` next to the corrected `InsertAt`. */
module ListSequence {
  import opened Errors
  import LinkedList

  datatype ListSeq<T> = ListSeq(list: LinkedList.List<T>, size: int) {

    /** The cached counter agrees with the list. */
    predicate Synced() {
      size == list.Length()
    }

    function Elements(): seq<T> {
      list.items
    }
  }

  /** The default constructor: an empty list and a counter of 0. */
  function Empty<T>(): (r: ListSeq<T>)
    ensures r.Synced() && r.Elements() == []
  {
    ListSeq(LinkedList.Empty(), 0)
  }

  /** `MutableListSequence(items, count)`: a negative count is refused by the list. */
  function FromItems<T>(items: seq<T>, count: int): (r: Result<ListSeq<T>>)
    requires count <= |items|
    ensures count < 0 <==> r.Err?
    ensures r.Err? ==> r.error == NegativeCount
    ensures r.Ok? ==> r.value.Synced() && r.value.Elements() == items[..count]
  {
    var l :- LinkedList.FromItems(items, count);
    assert l.items == items[..count];
    Ok(ListSeq(l, count))
  }

  /** `MutableListSequence(list)` and CreateFromList: the counter is taken from the list,
      so the result is always in step. */
  function FromList<T>(l: LinkedList.List<T>): (r: ListSeq<T>)
    ensures r.Synced() && r.Elements() == l.items
  {
    ListSeq(l, l.Length())
  }

  function GetFirst<T>(s: ListSeq<T>): (r: Result<T>)
    ensures r.Err? <==> s.Elements() == []
    ensures r.Err? ==> r.error == EmptyList
    ensures r.Ok? ==> r.value == s.Elements()[0]
  {
    LinkedList.GetFirst(s.list)
  }

  /** `GetLast()` counts up to `size - 1` (not below 0) and reads the list there. It
      reports the last element exactly when the counter is in step. */
  function GetLast<T>(s: ListSeq<T>): (r: Result<T>)
    ensures s.Synced() ==> r == LinkedList.GetLast(s.list)
    ensures s.Elements() == [] ==> r == Err(EmptyList)
    ensures s.Elements() != [] ==> (r.Ok? <==> s.size <= |s.Elements()|)
    ensures r.Ok? ==> r.value == s.Elements()[if s.size > 1 then s.size - 1 else 0]
  {
    var i := if s.size - 1 > 0 then s.size - 1 else 0;
    LinkedList.Get(s.list, i)
  }

  function Get<T>(s: ListSeq<T>, index: int): (r: Result<T>)
    ensures s.Elements() == [] ==> r == Err(EmptyList)
    ensures s.Elements() != [] ==> (r.Ok? <==> 0 <= index < |s.Elements()|)
    ensures s.Elements() != [] && r.Err? ==> r.error == IndexOutOfRange
    ensures r.Ok? ==> r.value == s.Elements()[index]
  {
    LinkedList.Get(s.list, index)
  }

  /** `GetLength()` asks the list, not the counter. */
  function GetLength<T>(s: ListSeq<T>): (r: nat)
    ensures r == |s.Elements()|
    ensures s.Synced() ==> r == s.size
  {
    s.list.Length()
  }

  /** `GetSubsequence(lo, hi)`: the sub-list lo..hi inclusive, in a new sequence. */
  function GetSubsequence<T>(s: ListSeq<T>, lo: int, hi: int): (r: Result<ListSeq<T>>)
    ensures r.Err? <==> lo < 0 || hi >= |s.Elements()| || lo > hi
    ensures r.Err? ==> r.error == InvalidIndices
    ensures r.Ok? ==> r.value.Synced() && r.value.Elements() == s.Elements()[lo..hi + 1]
  {
    var sub :- LinkedList.GetSubList(s.list, lo, hi);
    Ok(FromList(sub))
  }

  /** The new sequence Concat builds from two list sequences: the receiver's elements,
      then the argument's. Which sequences may be joined is decided in module Sequences. */
  function Concat<T>(s: ListSeq<T>, o: ListSeq<T>): (r: ListSeq<T>)
    ensures r.Synced()
    ensures r.Elements() == s.Elements() + o.Elements()
  {
    var joined := LinkedList.Concat(s.list, Some(o.list)).value;
    assert joined.items == s.Elements() + o.Elements();
    FromList(joined)
  }

  function Append<T>(s: ListSeq<T>, x: T): (r: ListSeq<T>)
    ensures r.Elements() == s.Elements() + [x]
    ensures s.Synced() ==> r.Synced()
  {
    var l := LinkedList.Append(s.list, x);
    assert l.items == s.Elements() + [x];
    ListSeq(l, s.size + 1)
  }

  function Prepend<T>(s: ListSeq<T>, x: T): (r: ListSeq<T>)
    ensures r.Elements() == [x] + s.Elements()
    ensures s.Synced() ==> r.Synced()
  {
    var l := LinkedList.Prepend(s.list, x);
    assert l.items == [x] + s.Elements();
    ListSeq(l, s.size + 1)
  }

  /** InsertAt with the counter incremented, as Append and Prepend do. */
  function InsertAt<T>(s: ListSeq<T>, x: T, index: int): (r: Result<ListSeq<T>>)
    ensures r.Err? <==> index < 0 || index > |s.Elements()|
    ensures r.Err? ==> r.error == IndexOutOfRange
    ensures r.Ok? ==> r.value.Elements() == s.Elements()[..index] + [x] + s.Elements()[index..]
    ensures r.Ok? && s.Synced() ==> r.value.Synced()
  {
    var l :- LinkedList.InsertAt(s.list, x, index);
    Ok(ListSeq(l, s.size + 1))
  }

  /** InsertAt as written: the list gains the element but the counter stays, so a
      sequence that was in step no longer is. */
  function InsertAtAsWritten<T>(s: ListSeq<T>, x: T, index: int): (r: Result<ListSeq<T>>)
    ensures r.Err? <==> InsertAt(s, x, index).Err?
    ensures r.Ok? ==> r.value.Elements() == InsertAt(s, x, index).value.Elements()
    ensures r.Ok? ==> r.value.size == s.size
    ensures r.Ok? && s.Synced() ==> !r.value.Synced()
  {
    var l :- LinkedList.InsertAt(s.list, x, index);
    Ok(ListSeq(l, s.size))
  }

  /** `Remove(index)`: an empty list reports EmptyList, otherwise the list checks the
      index, and the counter goes down by one. */
  function Remove<T>(s: ListSeq<T>, index: int): (r: Result<ListSeq<T>>)
    ensures s.Elements() == [] ==> r == Err(EmptyList)
    ensures s.Elements() != [] ==> (r.Ok? <==> 0 <= index < |s.Elements()|)
    ensures s.Elements() != [] && r.Err? ==> r.error == IndexOutOfRange
    ensures r.Ok? ==> r.value.Elements() == s.Elements()[..index] + s.Elements()[index + 1..]
    ensures r.Ok? && s.Synced() ==> r.value.Synced()
  {
    if s.list.Length() == 0 then Err(EmptyList)
    else
      var l :- LinkedList.Remove(s.list, index);
      Ok(ListSeq(l, s.size - 1))
  }

  /** After an insertion as written, GetLast reports the element before the last one;
      with the counter incremented it reports the last. */
  lemma StaleSizeMisreadsLast()
    ensures var s := FromList(LinkedList.List([1, 2]));
            && LinkedList.GetLast(InsertAtAsWritten(s, 3, 2).value.list) == Ok(3)
            && GetLast(InsertAtAsWritten(s, 3, 2).value) == Ok(2)
            && GetLast(InsertAt(s, 3, 2).value) == Ok(3)
  {
    var s := FromList(LinkedList.List([1, 2]));
    assert InsertAt(s, 3, 2).value.Elements() == [1, 2, 3];
  }

  /** For a sequence in step, the ends are what Append and Prepend put there, and
      each is undone by the matching Remove. */
  lemma EndsRoundTrip<T>(s: ListSeq<T>, x: T)
    requires s.Synced()
    ensures GetLast(Append(s, x)) == Ok(x)
    ensures GetFirst(Prepend(s, x)) == Ok(x)
    ensures Remove(Append(s, x), |s.Elements()|) == Ok(s)
    ensures Remove(Prepend(s, x), 0) == Ok(s)
  {
    LinkedList.EndsRoundTrip(s.list, x);
  }

  /** Inserting into a sequence in step and removing at the same index gives it back. */
  lemma InsertRemoveRoundTrip<T>(s: ListSeq<T>, x: T, i: int)
    requires s.Synced()
    requires 0 <= i <= |s.Elements()|
    ensures Remove(InsertAt(s, x, i).value, i) == Ok(s)
  {
    LinkedList.InsertRemoveRoundTrip(s.list, x, i);
  }

  /** The sequence test: append 1 and 2, prepend 0, insert 5 at 1, then take the
      sub-sequence 1..3. The steps hold with InsertAt as written too. */
  lemma ListSequenceScenario()
    ensures var s := Prepend(Append(Append(Empty(), 1), 2), 0);
            && GetLength(s) == 3 && Get(s, 0) == Ok(0) && Get(s, 2) == Ok(2)
            && var s2 := InsertAtAsWritten(s, 5, 1).value;
            && Get(s2, 1) == Ok(5) && Get(s2, 2) == Ok(1)
            && var sub := GetSubsequence(s2, 1, 3).value;
            && GetLength(sub) == 3 && Get(sub, 0) == Ok(5)
  {
    var s := Prepend(Append(Append(Empty(), 1), 2), 0);
    assert s.Elements() == [0, 1, 2];
    var s2 := InsertAtAsWritten(s, 5, 1).value;
    assert s2.Elements() == [0, 5, 1, 2];
  }
}
