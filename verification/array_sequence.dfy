/** The array-backed sequence (MutableArraySequence in ArraySequence.hpp): a buffer
    whose size is the capacity, and a logical length `size` of leading slots in use.

    As in ArraySequence.hpp, reads and sub-ranges are bounds-checked against the
    capacity, not the logical length. The length is an `int`, as there: Remove as
    written can take it below zero. Two places where ArraySequence.hpp departs from
    its evident intent are modelled both ways: the growth rule (`AppendAsWritten`
    against `Append`) and the index check of Remove (`RemoveAsWritten` against
    `Remove`). */
module ArraySequence {
  import opened Errors
  import DynamicArray

  datatype ArraySeq<T> = ArraySeq(items: DynamicArray.DynArray<T>, size: int) {

    function Capacity(): nat {
      items.Size()
    }

    /** The logical length lies between zero and the capacity. */
    predicate Valid() {
      0 <= size <= Capacity()
    }

    /** The values in logical use. */
    function Elements(): seq<T>
      requires Valid()
    {
      items.data[..size]
    }
  }

  /** The default constructor: no elements and no capacity. */
  function Empty<T>(): (r: ArraySeq<T>)
    ensures r.Valid() && r.size == 0 && r.Capacity() == 0
  {
    ArraySeq(DynamicArray.DynArray([]), 0)
  }

  /** `MutableArraySequence(items, count)`: capacity and length are both `count`. */
  function FromItems<T>(items: seq<T>, count: int): (r: Result<ArraySeq<T>>)
    requires count <= |items|
    ensures count < 0 <==> r.Err?
    ensures r.Err? ==> r.error == NegativeSize
    ensures r.Ok? ==> r.value.Valid() && r.value.Capacity() == count
    ensures r.Ok? ==> r.value.Elements() == items[..count]
  {
    var buffer :- DynamicArray.FromItems(items, count);
    assert buffer.data == items[..count];
    Ok(ArraySeq(buffer, count))
  }

  /** `MutableArraySequence(array)`: every slot of the buffer is in logical use. */
  function FromArray<T>(a: DynamicArray.DynArray<T>): (r: ArraySeq<T>)
    ensures r.Valid() && r.Capacity() == r.size
    ensures r.Elements() == a.data
  {
    ArraySeq(a, a.Size())
  }

  function GetFirst<T>(s: ArraySeq<T>): (r: Result<T>)
    requires s.Valid()
    ensures r.Err? <==> s.size == 0
    ensures r.Err? ==> r.error == EmptyArray
    ensures r.Ok? ==> r.value == s.Elements()[0]
  {
    if s.size == 0 then Err(EmptyArray) else DynamicArray.Get(s.items, 0)
  }

  function GetLast<T>(s: ArraySeq<T>): (r: Result<T>)
    requires s.Valid()
    ensures r.Err? <==> s.size == 0
    ensures r.Err? ==> r.error == EmptyArray
    ensures r.Ok? ==> r.value == s.Elements()[s.size - 1]
  {
    if s.size == 0 then Err(EmptyArray) else DynamicArray.Get(s.items, s.size - 1)
  }

  /** `Get(index)` delegates to the buffer, so any slot below the capacity can be read,
      including slots past the logical length. */
  function Get<T>(s: ArraySeq<T>, index: int): (r: Result<T>)
    ensures r.Ok? <==> 0 <= index < s.Capacity()
    ensures r.Err? ==> r.error == IndexOutOfRange
    ensures r.Ok? ==> r.value == s.items.data[index]
    ensures s.Valid() && 0 <= index < s.size ==> r == Ok(s.Elements()[index])
  {
    DynamicArray.Get(s.items, index)
  }

  /** Reading at the logical length succeeds whenever there is spare capacity, instead
      of failing with IndexOutOfRange. */
  lemma GetPastLengthReadsSpareSlot<T>(s: ArraySeq<T>)
    requires s.Valid() && s.size < s.Capacity()
    ensures Get(s, s.size) == Ok(s.items.data[s.size])
  {
  }

  /** `GetSubsequence(lo, hi)`: slots lo..hi inclusive, checked against the capacity. */
  function GetSubsequence<T>(s: ArraySeq<T>, lo: int, hi: int): (r: Result<ArraySeq<T>>)
    ensures r.Err? <==> lo < 0 || hi >= s.Capacity() || lo > hi
    ensures r.Err? ==> r.error == InvalidIndices
    ensures r.Ok? ==> r.value.Valid() && r.value.Capacity() == r.value.size
    ensures r.Ok? ==> r.value.Elements() == s.items.data[lo..hi + 1]
    ensures r.Ok? && s.Valid() && hi < s.size ==> r.value.Elements() == s.Elements()[lo..hi + 1]
  {
    var sub :- DynamicArray.GetSubArray(s.items, lo, hi);
    assert sub.data == s.items.data[lo..hi + 1];
    Ok(FromArray(sub))
  }

  /** The buffer Concat builds: the receiver's elements, then the argument's, with no
      spare capacity. Which sequences may be joined is decided in module Sequences. */
  function Concat<T>(s: ArraySeq<T>, o: ArraySeq<T>): (r: ArraySeq<T>)
    requires s.Valid() && o.Valid()
    ensures r.Valid() && r.Capacity() == r.size
    ensures r.Elements() == s.Elements() + o.Elements()
  {
    var n := s.size + o.size;
    var joined := seq(n, k requires 0 <= k < n => if k < s.size then s.items.data[k] else o.items.data[k - s.size]);
    assert joined == s.Elements() + o.Elements();
    FromArray(DynamicArray.DynArray(joined))
  }

  /** The growth rule with the evident intent: 10 slots for an empty sequence and about
      one and a half times the length otherwise, but always at least one more slot. */
  function NewCapacity(size: nat): (c: nat)
    ensures c > size
    ensures size == 0 ==> c == 10
    ensures size >= 2 ==> c == size + size / 2
  {
    if size == 0 then 10 else if size / 2 == 0 then size + 1 else size + size / 2
  }

  /** The growth rule as written: `size == 0 ? 10 : size + size / 2`. */
  function GrowthAsWritten(size: nat): (c: nat)
    ensures size != 1 ==> c == NewCapacity(size)
    ensures size == 1 ==> c == size
  {
    if size == 0 then 10 else size + size / 2
  }

  /** Append's steps: grow to `grown` slots when the length has reached the capacity,
      then store the item at index `size`. */
  function AppendGrowingTo<T>(s: ArraySeq<T>, x: T, blank: T, grown: nat): (r: Result<ArraySeq<T>>)
    requires s.Valid()
    ensures r.Ok? ==> r.value.size == s.size + 1
    ensures r.Ok? <==> s.size < (if s.size + 1 > s.Capacity() then grown else s.Capacity())
    ensures r.Err? ==> r.error == IndexOutOfRange
  {
    var buffer := if s.size + 1 > s.Capacity() then DynamicArray.Resize(s.items, grown, blank).value else s.items;
    var stored :- DynamicArray.Set(buffer, s.size, x);
    Ok(ArraySeq(stored, s.size + 1))
  }

  /** Append with the corrected growth rule: it never fails, the new element goes last,
      and the capacity grows only when the sequence was full. */
  function Append<T>(s: ArraySeq<T>, x: T, blank: T): (r: Result<ArraySeq<T>>)
    requires s.Valid()
    ensures r.Ok? && r.value.Valid()
    ensures r.value.Elements() == s.Elements() + [x]
    ensures r.value.Capacity() == if s.size + 1 > s.Capacity() then NewCapacity(s.size) else s.Capacity()
  {
    var r := AppendGrowingTo(s, x, blank, NewCapacity(s.size));
    assert r.value.Elements() == s.Elements() + [x];
    r
  }

  /** Append as written: with one element and capacity one it "grows" to capacity one
      and then writes at index 1. */
  function AppendAsWritten<T>(s: ArraySeq<T>, x: T, blank: T): (r: Result<ArraySeq<T>>)
    requires s.Valid()
    ensures s.size == 1 && s.Capacity() == 1 ==> r == Err(IndexOutOfRange)
    ensures !(s.size == 1 && s.Capacity() == 1) ==> r == Append(s, x, blank)
  {
    AppendGrowingTo(s, x, blank, GrowthAsWritten(s.size))
  }

  /** `Prepend(item)`: builds a buffer of exactly length + 1 slots, the item first and the
      old elements after it, and replaces the old buffer with it. */
  function Prepend<T>(s: ArraySeq<T>, x: T): (r: ArraySeq<T>)
    requires s.Valid()
    ensures r.Valid() && r.Capacity() == r.size
    ensures r.Elements() == [x] + s.Elements()
  {
    var n := s.size + 1;
    var shifted := seq(n, k requires 0 <= k < n => if k == 0 then x else s.items.data[k - 1]);
    assert shifted == [x] + s.Elements();
    FromArray(DynamicArray.DynArray(shifted))
  }

  /** InsertAt's steps: check the index, grow to `grown` slots when full, then move the
      elements from `index` on one slot along, starting from slot `size`, and store
      the item at `index`. The first write goes to slot `size`, so it fails when the
      buffer did not grow past the length. */
  function InsertGrowingTo<T>(s: ArraySeq<T>, x: T, index: int, blank: T, grown: nat): (r: Result<ArraySeq<T>>)
    requires s.Valid()
    ensures r.Err? <==> index < 0 || index > s.size || (s.Capacity() < s.size + 1 && grown <= s.size)
    ensures r.Err? ==> r.error == IndexOutOfRange
    ensures r.Ok? ==> r.value.Valid()
    ensures r.Ok? ==> r.value.Elements() == s.Elements()[..index] + [x] + s.Elements()[index..]
    ensures r.Ok? ==> r.value.Capacity() == if s.Capacity() < s.size + 1 then grown else s.Capacity()
  {
    if index < 0 || index > s.size then Err(IndexOutOfRange)
    else
      var buffer := if s.Capacity() < s.size + 1 then DynamicArray.Resize(s.items, grown, blank).value else s.items;
      if buffer.Size() <= s.size then Err(IndexOutOfRange)
      else
        assert buffer.data[..s.size] == s.Elements();
        var n := buffer.Size();
        var shifted := seq(n, k requires 0 <= k < n =>
                             if k < index || k > s.size then buffer.data[k]
                             else if k == index then x
                             else buffer.data[k - 1]);
        var r := ArraySeq(DynamicArray.DynArray(shifted), s.size + 1);
        assert r.Elements() == s.Elements()[..index] + [x] + s.Elements()[index..];
        Ok(r)
  }

  /** `InsertAt(item, index)` with the corrected growth rule: positions 0 through the
      length are accepted, and the item lands at `index` with the rest moved along. */
  function InsertAt<T>(s: ArraySeq<T>, x: T, index: int, blank: T): (r: Result<ArraySeq<T>>)
    requires s.Valid()
    ensures r.Err? <==> index < 0 || index > s.size
    ensures r.Err? ==> r.error == IndexOutOfRange
    ensures r.Ok? ==> r.value.Valid()
    ensures r.Ok? ==> r.value.Elements() == s.Elements()[..index] + [x] + s.Elements()[index..]
    ensures r.Ok? ==> r.value.Capacity() == if s.Capacity() < s.size + 1 then NewCapacity(s.size) else s.Capacity()
  {
    InsertGrowingTo(s, x, index, blank, NewCapacity(s.size))
  }

  /** InsertAt as written shares Append's growth rule, and so its failure at length one
      and capacity one. */
  function InsertAtAsWritten<T>(s: ArraySeq<T>, x: T, index: int, blank: T): (r: Result<ArraySeq<T>>)
    requires s.Valid()
    ensures s.size == 1 && s.Capacity() == 1 ==> r == Err(IndexOutOfRange)
    ensures !(s.size == 1 && s.Capacity() == 1) ==> r == InsertAt(s, x, index, blank)
  {
    InsertGrowingTo(s, x, index, blank, GrowthAsWritten(s.size))
  }

  /** `Remove(index)` with the index checked against the logical length: an empty buffer
      reports EmptyArray, an index outside the elements reports IndexOutOfRange, and
      otherwise the element goes and the buffer shrinks by one slot. */
  function Remove<T>(s: ArraySeq<T>, index: int): (r: Result<ArraySeq<T>>)
    requires s.Valid()
    ensures s.Capacity() == 0 ==> r == Err(EmptyArray)
    ensures s.Capacity() > 0 ==> (r.Ok? <==> 0 <= index < s.size)
    ensures s.Capacity() > 0 && r.Err? ==> r.error == IndexOutOfRange
    ensures r.Ok? ==> r.value.Valid() && r.value.Capacity() == s.Capacity() - 1
    ensures r.Ok? ==> r.value.Elements() == s.Elements()[..index] + s.Elements()[index + 1..]
  {
    if s.Capacity() == 0 then Err(EmptyArray)
    else if index < 0 || index >= s.size then Err(IndexOutOfRange)
    else
      var shrunk := DynamicArray.Remove(s.items, index).value;
      var r := ArraySeq(shrunk, s.size - 1);
      assert r.Elements() == s.Elements()[..index] + s.Elements()[index + 1..];
      Ok(r)
  }

  /** Remove as written: the index is checked only against the capacity, and the length
      is decremented whichever slot went. Removing a spare slot past the length thus
      drops the last element instead, and on an empty sequence with spare capacity
      leaves the length at -1. Everywhere else it agrees with the corrected Remove. */
  function RemoveAsWritten<T>(s: ArraySeq<T>, index: int): (r: Result<ArraySeq<T>>)
    requires s.Valid()
    ensures s.Capacity() == 0 ==> r == Err(EmptyArray)
    ensures s.Capacity() > 0 ==> (r.Ok? <==> 0 <= index < s.Capacity())
    ensures r.Ok? ==> r.value.size == s.size - 1 && r.value.Capacity() == s.Capacity() - 1
    ensures !(s.size <= index < s.Capacity()) ==> r == Remove(s, index)
    ensures s.size <= index < s.Capacity() && s.size > 0 ==>
              r.Ok? && r.value.Valid() && r.value.Elements() == s.Elements()[..s.size - 1]
  {
    if s.Capacity() == 0 then Err(EmptyArray)
    else
      var shrunk :- DynamicArray.Remove(s.items, index);
      var r := ArraySeq(shrunk, s.size - 1);
      assert s.size <= index && s.size > 0 ==> r.Elements() == s.Elements()[..s.size - 1];
      Ok(r)
  }

  /** Appending one item and removing it leaves a sequence of length 0 with 9 spare
      slots; Remove as written then accepts index 0 and leaves length -1. */
  lemma RemovePastLengthGoesNegative<T>(x: T, blank: T)
    ensures var s := Remove(Append(Empty(), x, blank).value, 0).value;
            && s.size == 0 && s.Capacity() == 9
            && RemoveAsWritten(s, 0).Ok? && RemoveAsWritten(s, 0).value.size == -1
            && Remove(s, 0) == Err(IndexOutOfRange)
  {
  }

  /** Prepending to an empty sequence leaves length 1 and capacity 1; Append and InsertAt
      as written then fail, while the corrected ones give both elements. */
  lemma AppendAfterPrependFails<T>(x: T, y: T, blank: T)
    ensures var s := Prepend(Empty(), x);
            && s.size == 1 && s.Capacity() == 1
            && AppendAsWritten(s, y, blank) == Err(IndexOutOfRange)
            && InsertAtAsWritten(s, y, 1, blank) == Err(IndexOutOfRange)
            && Append(s, y, blank).value.Elements() == [x, y]
            && InsertAt(s, y, 0, blank).value.Elements() == [y, x]
  {
  }

  /** Prepend then Remove(0), and Append then removing the last, each give the original
      elements back; the new item is what GetFirst / GetLast report. */
  lemma EndsRoundTrip<T>(s: ArraySeq<T>, x: T, blank: T)
    requires s.Valid()
    ensures GetFirst(Prepend(s, x)) == Ok(x)
    ensures Remove(Prepend(s, x), 0).value.Elements() == s.Elements()
    ensures GetLast(Append(s, x, blank).value) == Ok(x)
    ensures Remove(Append(s, x, blank).value, s.size).value.Elements() == s.Elements()
  {
    assert ([x] + s.Elements())[1..] == s.Elements();
    assert (s.Elements() + [x])[..s.size] == s.Elements();
  }

  /** InsertAt then Remove at the same index gives the original elements back. */
  lemma InsertRemoveRoundTrip<T>(s: ArraySeq<T>, x: T, i: int, blank: T)
    requires s.Valid()
    requires 0 <= i <= s.size
    ensures InsertAt(s, x, i, blank).Ok?
    ensures Remove(InsertAt(s, x, i, blank).value, i).value.Elements() == s.Elements()
  {
    var e := s.Elements();
    var ins := InsertAt(s, x, i, blank).value.Elements();
    assert ins[..i] == e[..i];
    assert ins[i + 1..] == e[i..];
    assert e[..i] + e[i..] == e;
  }

  /** The two halves of a concatenation come back out as sub-sequences. */
  lemma ConcatSplits<T>(a: ArraySeq<T>, b: ArraySeq<T>)
    requires a.Valid() && b.Valid() && a.size > 0 && b.size > 0
    ensures GetSubsequence(Concat(a, b), 0, a.size - 1).value.Elements() == a.Elements()
    ensures GetSubsequence(Concat(a, b), a.size, a.size + b.size - 1).value.Elements() == b.Elements()
  {
    var c := Concat(a, b);
    assert c.Elements()[0..a.size] == a.Elements();
    assert c.Elements()[a.size..a.size + b.size] == b.Elements();
  }

  /** Appends the items one by one, in order. */
  function AppendAll<T>(s: ArraySeq<T>, xs: seq<T>, blank: T): (r: ArraySeq<T>)
    requires s.Valid()
    ensures r.Valid()
    ensures r.Elements() == s.Elements() + xs
  {
    if xs == [] then s
    else
      var front := AppendAll(s, xs[..|xs| - 1], blank);
      assert xs == xs[..|xs| - 1] + [xs[|xs| - 1]];
      Append(front, xs[|xs| - 1], blank).value
  }

  /** The capacity after `n` appends to an empty sequence. */
  function CapacityAfter(n: nat): nat {
    if n == 0 then 0
    else
      var before := CapacityAfter(n - 1);
      if n > before then NewCapacity(n - 1) else before
  }

  /** Appending to an empty sequence: the length is the number of items appended, and
      the capacity follows the growth rule step by step. */
  lemma {:induction false} AppendsFromEmpty<T>(xs: seq<T>, blank: T)
    ensures AppendAll(Empty(), xs, blank).size == |xs|
    ensures AppendAll(Empty(), xs, blank).Capacity() == CapacityAfter(|xs|)
  {
    if xs != [] {
      AppendsFromEmpty(xs[..|xs| - 1], blank);
    }
  }

  /** Reading a sequence whose elements are `s`'s followed by `xs`, at `s`'s length + i. */
  lemma ReadPastPrefix<T>(s: ArraySeq<T>, xs: seq<T>, r: ArraySeq<T>, i: nat)
    requires s.Valid() && r.Valid() && i < |xs|
    requires r.Elements() == s.Elements() + xs
    ensures Get(r, s.size + i) == Ok(xs[i])
  {
    assert |r.Elements()| == r.size;
    assert (s.Elements() + xs)[s.size + i] == xs[i];
  }

  /** Each appended item can be read back at the index it was appended at. */
  lemma AppendAllReadsBack<T>(s: ArraySeq<T>, xs: seq<T>, blank: T, i: nat)
    requires s.Valid() && i < |xs|
    ensures Get(AppendAll(s, xs, blank), s.size + i) == Ok(xs[i])
  {
    ReadPastPrefix(s, xs, AppendAll(s, xs, blank), i);
  }

  /** Eleven appends from empty: the first gives capacity 10, the eleventh grows it to 15,
      and item 10 sits at index 10. */
  lemma ElevenAppends(blank: int)
    ensures AppendAll(Empty(), [0], blank).Capacity() == 10
    ensures var s := AppendAll(Empty(), [0, 1, 2, 3, 4, 5, 6, 7, 8, 9, 10], blank);
            s.Capacity() == 15 && s.size == 11 && Get(s, 10) == Ok(10)
  {
    AppendsFromEmpty([0], blank);
    AppendsFromEmpty([0, 1, 2, 3, 4, 5, 6, 7, 8, 9, 10], blank);
    AppendAllReadsBack(Empty(), [0, 1, 2, 3, 4, 5, 6, 7, 8, 9, 10], blank, 10);
    assert CapacityAfter(1) == 10;
    assert CapacityAfter(5) == 10;
    assert CapacityAfter(10) == 10;
    assert CapacityAfter(11) == 15;
  }

  /** The sequence test: append 1 and 2, prepend 0, insert 5 at 1, then take the
      sub-sequence 1..3. */
  lemma ArraySequenceScenario(blank: int)
    ensures var s1 := Append(Append(Empty(), 1, blank).value, 2, blank).value;
            var s := Prepend(s1, 0);
            && s.size == 3 && Get(s, 0) == Ok(0) && Get(s, 2) == Ok(2)
            && var s2 := InsertAt(s, 5, 1, blank).value;
            && Get(s2, 1) == Ok(5) && Get(s2, 2) == Ok(1)
            && var sub := GetSubsequence(s2, 1, 3).value;
            && sub.size == 3 && Get(sub, 0) == Ok(5)
  {
    var s1 := Append(Append(Empty(), 1, blank).value, 2, blank).value;
    assert s1.Elements() == [1, 2];
    var s := Prepend(s1, 0);
    assert s.Elements() == [0, 1, 2];
    var s2 := InsertAt(s, 5, 1, blank).value;
    assert s2.Elements() == [0, 5, 1, 2];
    assert s2.Capacity() == 4;
  }
}
