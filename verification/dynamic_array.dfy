/** The fixed-size buffer underneath array sequences (DynamicArray.hpp).

    The buffer is a value: copying it copies its contents, and every
    operation returns the new buffer instead of changing one in place.
    Where DynamicArray.hpp allocates `new T[n]`, the fresh slots hold `blank`,
    which stands for the value a default-constructed `T` has. */
module DynamicArray {
  import opened Errors

  /** A buffer of `Size()` slots. Array sequences use its size as their capacity. */
  datatype DynArray<T> = DynArray(data: seq<T>) {
    function Size(): nat {
      |data|
    }
  }

  /** `DynamicArray(items, count)`: copies the first `count` items.
      The caller must supply at least `count` items, as DynamicArray.hpp reads them unchecked. */
  function FromItems<T>(items: seq<T>, count: int): (r: Result<DynArray<T>>)
    requires count <= |items|
    ensures count < 0 <==> r.Err?
    ensures r.Err? ==> r.error == NegativeSize
    ensures r.Ok? ==> r.value.Size() == count
    ensures r.Ok? ==> forall i :: 0 <= i < count ==> r.value.data[i] == items[i]
  {
    if count < 0 then Err(NegativeSize) else Ok(DynArray(items[..count]))
  }

  /** `DynamicArray(size)`: a buffer of `size` fresh slots. */
  function Make<T>(size: int, blank: T): (r: Result<DynArray<T>>)
    ensures size < 0 <==> r.Err?
    ensures r.Err? ==> r.error == NegativeSize
    ensures r.Ok? ==> r.value.Size() == size
    ensures r.Ok? ==> forall i :: 0 <= i < size ==> r.value.data[i] == blank
  {
    if size < 0 then Err(NegativeSize) else Ok(DynArray(seq(size, _ => blank)))
  }

  /** The copy constructor: allocates a buffer of the same size and copies slot by slot. */
  method Copy<T>(a: DynArray<T>) returns (r: DynArray<T>)
    ensures r.Size() == a.Size()
    ensures forall i :: 0 <= i < a.Size() ==> r.data[i] == a.data[i]
  {
    var buf: seq<T> := [];
    var i := 0;
    while i < a.Size()
      invariant 0 <= i <= a.Size()
      invariant |buf| == i
      invariant forall k :: 0 <= k < i ==> buf[k] == a.data[k]
    {
      buf := buf + [a.data[i]];
      i := i + 1;
    }
    r := DynArray(buf);
  }

  /** Bounds-checked read. */
  function Get<T>(a: DynArray<T>, index: int): (r: Result<T>)
    ensures r.Ok? <==> 0 <= index < a.Size()
    ensures r.Err? ==> r.error == IndexOutOfRange
    ensures r.Ok? ==> r.value == a.data[index]
  {
    if index < 0 || index >= a.Size() then Err(IndexOutOfRange) else Ok(a.data[index])
  }

  /** Bounds-checked write: only slot `index` changes. */
  function Set<T>(a: DynArray<T>, index: int, value: T): (r: Result<DynArray<T>>)
    ensures r.Ok? <==> 0 <= index < a.Size()
    ensures r.Err? ==> r.error == IndexOutOfRange
    ensures r.Ok? ==> r.value.Size() == a.Size() && r.value.data[index] == value
    ensures r.Ok? ==> forall j :: 0 <= j < a.Size() && j != index ==> r.value.data[j] == a.data[j]
  {
    if index < 0 || index >= a.Size() then Err(IndexOutOfRange) else Ok(DynArray(a.data[index := value]))
  }

  /** Deletes slot `index`. An empty buffer is left as it is, whatever the index.
      Removing the last slot only shrinks the size; any other slot is removed by
      copying the slots before it and the slots after it into a buffer one shorter. */
  function Remove<T>(a: DynArray<T>, index: int): (r: Result<DynArray<T>>)
    ensures a.Size() == 0 ==> r == Ok(a)
    ensures a.Size() > 0 ==> (r.Ok? <==> 0 <= index < a.Size())
    ensures r.Err? ==> r.error == IndexOutOfRange
    ensures a.Size() > 0 && r.Ok? ==> r.value.data == a.data[..index] + a.data[index + 1..]
  {
    if a.Size() == 0 then Ok(a)
    else if index < 0 || index >= a.Size() then Err(IndexOutOfRange)
    else if index == a.Size() - 1 then Ok(DynArray(a.data[..index]))
    else
      var n := a.Size() - 1;
      Ok(DynArray(seq(n, k requires 0 <= k < n => if k < index then a.data[k] else a.data[k + 1])))
  }

  /** Removing a slot takes exactly that one element out of the buffer's contents. */
  lemma RemoveTakesOne<T>(a: DynArray<T>, index: int)
    requires 0 <= index < a.Size()
    ensures Remove(a, index).Ok?
    ensures multiset(Remove(a, index).value.data) + multiset{a.data[index]} == multiset(a.data)
  {
    var r := Remove(a, index).value;
    assert a.data == a.data[..index] + [a.data[index]] + a.data[index + 1..];
    assert r.data == a.data[..index] + a.data[index + 1..];
  }

  /** Resize, with the evident intent: the first `min(old, newSize)` slots are kept,
      and any slots beyond the old size are fresh. */
  function Resize<T>(a: DynArray<T>, newSize: int, blank: T): (r: Result<DynArray<T>>)
    ensures newSize < 0 <==> r.Err?
    ensures r.Err? ==> r.error == NegativeSize
    ensures r.Ok? ==> r.value.Size() == newSize
    ensures r.Ok? ==> forall i :: 0 <= i < newSize && i < a.Size() ==> r.value.data[i] == a.data[i]
    ensures r.Ok? ==> forall i :: a.Size() <= i < newSize ==> r.value.data[i] == blank
  {
    if newSize < 0 then Err(NegativeSize)
    else Ok(DynArray(seq(newSize, i requires 0 <= i < newSize => if i < a.Size() then a.data[i] else blank)))
  }

  /** Growing a buffer and then resizing it back to its old size gives the buffer back. */
  lemma ResizeRoundTrip<T>(a: DynArray<T>, bigger: int, blank: T)
    requires a.Size() <= bigger
    ensures Resize(a, bigger, blank).Ok?
    ensures Resize(Resize(a, bigger, blank).value, a.Size(), blank) == Ok(a)
  {
    var g := Resize(a, bigger, blank).value;
    var back := Resize(g, a.Size(), blank).value;
    assert back.data == a.data;
  }

  /** Shrinking keeps exactly the leading slots. */
  lemma ResizeShrinkKeepsPrefix<T>(a: DynArray<T>, n: nat, blank: T)
    requires n <= a.Size()
    ensures Resize(a, n, blank) == Ok(DynArray(a.data[..n]))
  {
    assert Resize(a, n, blank).value.data == a.data[..n];
  }

  /** The copy loop of Resize as written: stores src[i], src[i+1], ... at the same
      positions of `dst`, with no check that a position lies inside `dst`. */
  function CopyLoop<T>(src: seq<T>, dst: seq<T>, i: nat): (r: Step<seq<T>>)
    requires i <= |src| && i <= |dst|
    decreases |src| - i
    ensures r == Undefined <==> |src| > |dst|
    ensures r.Thrown? == false
    ensures r.Done? ==> |r.value| == |dst|
    ensures r.Done? ==> forall k :: 0 <= k < |dst| ==> r.value[k] == (if i <= k < |src| then src[k] else dst[k])
  {
    if i == |src| then Done(dst)
    else if i >= |dst| then Undefined
    else CopyLoop(src, dst[i := src[i]], i + 1)
  }

  /** Resize as written: it copies all old slots, so shrinking writes past the new buffer. */
  function ResizeAsWritten<T>(a: DynArray<T>, newSize: int, blank: T): (r: Step<DynArray<T>>)
    ensures newSize < 0 ==> r == Thrown(NegativeSize)
    ensures r == Undefined <==> 0 <= newSize < a.Size()
    ensures r.Done? ==> Resize(a, newSize, blank) == Ok(r.value)
  {
    if newSize < 0 then Thrown(NegativeSize)
    else
      var buffer := seq(newSize, _ => blank);
      var out := CopyLoop(a.data, buffer, 0);
      if out.Done? then
        assert out.value == Resize(a, newSize, blank).value.data;
        Done(DynArray(out.value))
      else Undefined
  }

  /** `GetSubArray(lo, hi)`: a fresh buffer holding slots lo..hi inclusive. */
  function GetSubArray<T>(a: DynArray<T>, lo: int, hi: int): (r: Result<DynArray<T>>)
    ensures r.Err? <==> lo < 0 || hi >= a.Size() || lo > hi
    ensures r.Err? ==> r.error == InvalidIndices
    ensures r.Ok? ==> r.value.Size() == hi - lo + 1
    ensures r.Ok? ==> forall k :: 0 <= k <= hi - lo ==> r.value.data[k] == a.data[lo + k]
  {
    if lo < 0 || hi >= a.Size() || lo > hi then Err(InvalidIndices)
    else Ok(DynArray(a.data[lo..hi + 1]))
  }

  /** The full range of a non-empty buffer is the buffer itself, and a range of a range
      is the corresponding range of the original. */
  lemma SubArrayComposes<T>(a: DynArray<T>, lo: int, hi: int, lo2: int, hi2: int)
    requires 0 <= lo <= hi < a.Size()
    requires 0 <= lo2 <= hi2 <= hi - lo
    ensures a.Size() > 0 ==> GetSubArray(a, 0, a.Size() - 1) == Ok(a)
    ensures GetSubArray(GetSubArray(a, lo, hi).value, lo2, hi2) == GetSubArray(a, lo + lo2, lo + hi2)
  {
    assert a.data[0..a.Size()] == a.data;
    var s := GetSubArray(a, lo, hi).value;
    assert s.data[lo2..hi2 + 1] == a.data[lo + lo2..lo + hi2 + 1];
  }

  /** `operator==`: equal sizes and equal slots, compared one by one. */
  method Equals<T(==)>(lhs: DynArray<T>, rhs: DynArray<T>) returns (eq: bool)
    ensures eq <==> lhs == rhs
  {
    if lhs.Size() != rhs.Size() {
      return false;
    }
    var i := 0;
    while i < lhs.Size()
      invariant 0 <= i <= lhs.Size()
      invariant forall k :: 0 <= k < i ==> lhs.data[k] == rhs.data[k]
    {
      if lhs.data[i] != rhs.data[i] {
        return false;
      }
      i := i + 1;
    }
    assert lhs.data == rhs.data;
    return true;
  }

  /** The steps of the buffer test: three writes, a copy that compares equal, a resize up
      to 5, a resize down to 2 that keeps 10 and 20, and a removal leaving one slot. */
  lemma DynamicArrayScenario(blank: int)
    ensures var a := Make(3, blank).value;
            var a1 := Set(a, 0, 10).value;
            var a2 := Set(a1, 1, 20).value;
            var a3 := Set(a2, 2, 30).value;
            var up := Resize(a3, 5, blank).value;
            var down := Resize(up, 2, blank).value;
            && a3 == DynArray([10, 20, 30])
            && up.Size() == 5
            && down == DynArray([10, 20])
            && Remove(down, 1) == Ok(DynArray([10]))
  {
    var a := Make(3, blank).value;
    var a1 := Set(a, 0, 10).value;
    var a2 := Set(a1, 1, 20).value;
    var a3 := Set(a2, 2, 30).value;
    assert a3.data == [10, 20, 30];
    var up := Resize(a3, 5, blank).value;
    var down := Resize(up, 2, blank).value;
    assert down.data == [10, 20];
    assert Remove(down, 1).value.data == [10];
  }

  /** The same test under Resize as written: its second resize copies five slots into a
      buffer of two. */
  lemma ResizeShrinkOverflows(blank: int)
    ensures ResizeAsWritten(DynArray([10, 20, 30, blank, blank]), 2, blank) == Undefined
    ensures Resize(DynArray([10, 20, 30, blank, blank]), 2, blank) == Ok(DynArray([10, 20]))
  {
    assert Resize(DynArray([10, 20, 30, blank, blank]), 2, blank).value.data == [10, 20];
  }
}
