/** The four concrete sequences behind the Sequence interface (Sequence.hpp): an array
    or a list storage, each in a mutable and an immutable variant.

    Which class an object has is a tag here; the `dynamic_cast` checks in the Concat
    of ArraySequence.hpp and ListSequence.hpp become tests on the tag. The immutable variants inherit all readers, and
    differ from the mutable ones only in the mutators, Concat, Instance and Clone. */
module Sequences {
  import opened Errors
  import ArraySequence
  import ListSequence

  datatype Variant = Mutable | Immutable

  datatype Sequence<T> =
    | ArrayBacked(variant: Variant, arr: ArraySequence.ArraySeq<T>)
    | ListBacked(variant: Variant, lst: ListSequence.ListSeq<T>)
  {
    predicate Valid() {
      if ArrayBacked? then arr.Valid() else lst.Synced()
    }

    function Elements(): seq<T>
      requires Valid()
    {
      if ArrayBacked? then arr.Elements() else lst.Elements()
    }
  }

  /** A default-constructed mutable sequence with the same storage as `s`, as the
      adapters declare `ArrayQueue<T> result;` or `ListQueue<T> result;`. */
  function EmptyLike<T>(s: Sequence<T>): (r: Sequence<T>)
    ensures r.Valid() && r.Elements() == []
    ensures r.variant == Mutable && r.ArrayBacked? == s.ArrayBacked?
  {
    if s.ArrayBacked? then ArrayBacked(Mutable, ArraySequence.Empty())
    else ListBacked(Mutable, ListSequence.Empty())
  }

  /** The four mutators of the interface. */
  datatype EditOp<T> =
    | AppendOp(item: T)
    | PrependOp(item: T)
    | InsertAtOp(item: T, index: int)
    | RemoveOp(index: int)

  /** What an edit should do to the elements, independently of the storage: None when
      the index is not acceptable. */
  function Intended<T>(e: seq<T>, op: EditOp<T>): Option<seq<T>> {
    match op
    case AppendOp(x) => Some(e + [x])
    case PrependOp(x) => Some([x] + e)
    case InsertAtOp(x, i) => if 0 <= i <= |e| then Some(e[..i] + [x] + e[i..]) else None
    case RemoveOp(i) => if 0 <= i < |e| then Some(e[..i] + e[i + 1..]) else None
  }

  /** The error an empty sequence reports from GetFirst and GetLast. */
  function EmptyError<T>(s: Sequence<T>): ErrorKind {
    if s.ArrayBacked? then EmptyArray else EmptyList
  }

  function GetFirst<T>(s: Sequence<T>): (r: Result<T>)
    requires s.Valid()
    ensures r.Err? <==> s.Elements() == []
    ensures r.Err? ==> r.error == EmptyError(s)
    ensures r.Ok? ==> r.value == s.Elements()[0]
  {
    if s.ArrayBacked? then ArraySequence.GetFirst(s.arr) else ListSequence.GetFirst(s.lst)
  }

  function GetLast<T>(s: Sequence<T>): (r: Result<T>)
    requires s.Valid()
    ensures r.Err? <==> s.Elements() == []
    ensures r.Err? ==> r.error == EmptyError(s)
    ensures r.Ok? ==> r.value == s.Elements()[|s.Elements()| - 1]
  {
    if s.ArrayBacked? then ArraySequence.GetLast(s.arr) else ListSequence.GetLast(s.lst)
  }

  /** `Get(index)`: every element can be read at its index. Past the end, a list fails,
      while an array fails only past its capacity. */
  function Get<T>(s: Sequence<T>, index: int): (r: Result<T>)
    requires s.Valid()
    ensures 0 <= index < |s.Elements()| ==> r == Ok(s.Elements()[index])
    ensures s.ListBacked? && !(0 <= index < |s.Elements()|) ==> r.Err?
    ensures s.ArrayBacked? ==> (r.Err? <==> index < 0 || index >= s.arr.Capacity())
    ensures r.Err? ==> r.error == (if s.ListBacked? && s.Elements() == [] then EmptyList else IndexOutOfRange)
  {
    if s.ArrayBacked? then ArraySequence.Get(s.arr, index) else ListSequence.Get(s.lst, index)
  }

  function GetLength<T>(s: Sequence<T>): (r: nat)
    requires s.Valid()
    ensures r == |s.Elements()|
  {
    if s.ArrayBacked? then s.arr.size else ListSequence.GetLength(s.lst)
  }

  /** `IsEmpty()` of the stack, queue and deque: the length is zero. */
  function IsEmpty<T>(s: Sequence<T>): (r: bool)
    requires s.Valid()
    ensures r <==> s.Elements() == []
  {
    GetLength(s) == 0
  }

  /** `GetSubsequence(lo, hi)`: neither immutable variant overrides it, so the result is
      always a mutable sequence of the receiver's storage. */
  function GetSubsequence<T>(s: Sequence<T>, lo: int, hi: int): (r: Result<Sequence<T>>)
    requires s.Valid()
    ensures r.Ok? ==> r.value.Valid() && r.value.variant == Mutable && r.value.ArrayBacked? == s.ArrayBacked?
    ensures 0 <= lo <= hi < |s.Elements()| ==> r.Ok? && r.value.Elements() == s.Elements()[lo..hi + 1]
    ensures lo < 0 || lo > hi ==> r == Err(InvalidIndices)
    ensures s.ListBacked? && hi >= |s.Elements()| ==> r == Err(InvalidIndices)
  {
    if s.ArrayBacked? then
      var sub :- ArraySequence.GetSubsequence(s.arr, lo, hi);
      Ok(ArrayBacked(Mutable, sub))
    else
      var sub :- ListSequence.GetSubsequence(s.lst, lo, hi);
      Ok(ListBacked(Mutable, sub))
  }

  /** `Concat(other)`: a mutable array accepts any array; an immutable array accepts only
      an immutable array and keeps its variant; a list of either variant accepts any
      list and gives a mutable list. Mixing array and list storage is refused. */
  function Concat<T>(s: Sequence<T>, o: Sequence<T>): (r: Result<Sequence<T>>)
    requires s.Valid() && o.Valid()
    ensures r.Ok? <==> s.ArrayBacked? == o.ArrayBacked? &&
                       (s.ArrayBacked? && s.variant == Immutable ==> o.variant == Immutable)
    ensures r.Err? ==> r.error == IncompatibleTypes
    ensures r.Ok? ==> r.value.Valid() && r.value.Elements() == s.Elements() + o.Elements()
    ensures r.Ok? ==> r.value.ArrayBacked? == s.ArrayBacked?
    ensures r.Ok? ==> r.value.variant == (if s.ArrayBacked? then s.variant else Mutable)
  {
    match s
    case ArrayBacked(Mutable, a) =>
      if o.ArrayBacked? then Ok(ArrayBacked(Mutable, ArraySequence.Concat(a, o.arr)))
      else Err(IncompatibleTypes)
    case ArrayBacked(Immutable, a) =>
      if o.ArrayBacked? && o.variant == Immutable then Ok(ArrayBacked(Immutable, ArraySequence.Concat(a, o.arr)))
      else Err(IncompatibleTypes)
    case ListBacked(_, l) =>
      if o.ListBacked? then Ok(ListBacked(Mutable, ListSequence.Concat(l, o.lst)))
      else Err(IncompatibleTypes)
  }

  /** A mutable array takes an immutable one, but not the other way round. */
  lemma ConcatIsNotSymmetric<T>(a: ArraySequence.ArraySeq<T>, b: ArraySequence.ArraySeq<T>)
    requires a.Valid() && b.Valid()
    ensures Concat(ArrayBacked(Mutable, a), ArrayBacked(Immutable, b)).Ok?
    ensures Concat(ArrayBacked(Immutable, b), ArrayBacked(Mutable, a)) == Err(IncompatibleTypes)
  {
  }

  /** The two operands of an accepted Concat come back out as sub-sequences. */
  lemma ConcatSplits<T>(s: Sequence<T>, o: Sequence<T>)
    requires s.Valid() && o.Valid() && s.Elements() != [] && o.Elements() != []
    requires Concat(s, o).Ok?
    ensures GetSubsequence(Concat(s, o).value, 0, |s.Elements()| - 1).value.Elements() == s.Elements()
    ensures GetLength(Concat(s, o).value) == GetLength(s) + GetLength(o)
  {
    var c := Concat(s, o).value.Elements();
    assert c[0..|s.Elements()|] == s.Elements();
  }

  /** `Append(item)` on either storage: the item goes last. The variant and the storage
      kind are kept; whether the receiver itself changes is up to module Handles. */
  function Append<T>(s: Sequence<T>, x: T, blank: T): (r: Sequence<T>)
    requires s.Valid()
    ensures r.Valid() && r.Elements() == s.Elements() + [x]
    ensures r.variant == s.variant && r.ArrayBacked? == s.ArrayBacked?
  {
    match s
    case ArrayBacked(v, a) => ArrayBacked(v, ArraySequence.Append(a, x, blank).value)
    case ListBacked(v, l) => ListBacked(v, ListSequence.Append(l, x))
  }

  /** `Prepend(item)` on either storage: the item goes first. */
  function Prepend<T>(s: Sequence<T>, x: T): (r: Sequence<T>)
    requires s.Valid()
    ensures r.Valid() && r.Elements() == [x] + s.Elements()
    ensures r.variant == s.variant && r.ArrayBacked? == s.ArrayBacked?
  {
    match s
    case ArrayBacked(v, a) => ArrayBacked(v, ArraySequence.Prepend(a, x))
    case ListBacked(v, l) => ListBacked(v, ListSequence.Prepend(l, x))
  }

  /** `InsertAt(item, index)` on either storage: positions 0 through the length. */
  function InsertAt<T>(s: Sequence<T>, x: T, index: int, blank: T): (r: Result<Sequence<T>>)
    requires s.Valid()
    ensures r.Err? <==> index < 0 || index > |s.Elements()|
    ensures r.Err? ==> r.error == IndexOutOfRange
    ensures r.Ok? ==> r.value.Valid() && r.value.Elements() == s.Elements()[..index] + [x] + s.Elements()[index..]
    ensures r.Ok? ==> r.value.variant == s.variant && r.value.ArrayBacked? == s.ArrayBacked?
  {
    match s
    case ArrayBacked(v, a) =>
      var a2 :- ArraySequence.InsertAt(a, x, index, blank);
      Ok(ArrayBacked(v, a2))
    case ListBacked(v, l) =>
      var l2 :- ListSequence.InsertAt(l, x, index);
      Ok(ListBacked(v, l2))
  }

  /** `Remove(index)` on either storage. An empty list reports EmptyList and an array with
      no capacity EmptyArray; otherwise an index outside the elements is IndexOutOfRange. */
  function Remove<T>(s: Sequence<T>, index: int): (r: Result<Sequence<T>>)
    requires s.Valid()
    ensures r.Err? <==> index < 0 || index >= |s.Elements()|
    ensures r.Err? ==> r.error == (if s.ListBacked? && s.Elements() == [] then EmptyList
                                   else if s.ArrayBacked? && s.arr.Capacity() == 0 then EmptyArray
                                   else IndexOutOfRange)
    ensures r.Ok? ==> r.value.Valid() && r.value.Elements() == s.Elements()[..index] + s.Elements()[index + 1..]
    ensures r.Ok? ==> r.value.variant == s.variant && r.value.ArrayBacked? == s.ArrayBacked?
  {
    match s
    case ArrayBacked(v, a) =>
      var a2 :- ArraySequence.Remove(a, index);
      Ok(ArrayBacked(v, a2))
    case ListBacked(v, l) =>
      var l2 :- ListSequence.Remove(l, index);
      Ok(ListBacked(v, l2))
  }

  /** The edit a mutator makes, whichever it is: it succeeds exactly when the storage-free
      reference `Intended` accepts the index, and then gives the elements it describes. */
  function Apply<T>(s: Sequence<T>, op: EditOp<T>, blank: T): (r: Result<Sequence<T>>)
    requires s.Valid()
    ensures r.Ok? <==> Intended(s.Elements(), op).Some?
    ensures r.Ok? ==> r.value.Valid() && r.value.Elements() == Intended(s.Elements(), op).value
    ensures r.Ok? ==> r.value.variant == s.variant && r.value.ArrayBacked? == s.ArrayBacked?
  {
    match op
    case AppendOp(x) => Ok(Append(s, x, blank))
    case PrependOp(x) => Ok(Prepend(s, x))
    case InsertAtOp(x, i) => InsertAt(s, x, i, blank)
    case RemoveOp(i) => Remove(s, i)
  }

  /** Whether the immutable override of `op` calls itself: every list mutator, and the
      array's Remove, call the same method on a clone of the same immutable class. */
  predicate RecursesForever<T>(s: Sequence<T>, op: EditOp<T>) {
    s.variant == Immutable && (s.ListBacked? || op.RemoveOp?)
  }

  /** A mutator of the mutable array code as written: Append and InsertAt with the growth
      rule as written, Remove with the index checked against the capacity only. The
      immutable array reaches this code for Append, Prepend and InsertAt through its clone. */
  function ArrayEditAsWritten<T>(a: ArraySequence.ArraySeq<T>, op: EditOp<T>, blank: T): (r: Result<ArraySequence.ArraySeq<T>>)
    requires a.Valid()
    ensures op.AppendOp? ==> r == ArraySequence.AppendAsWritten(a, op.item, blank)
    ensures op.PrependOp? ==> r == Ok(ArraySequence.Prepend(a, op.item))
    ensures op.InsertAtOp? ==> r == ArraySequence.InsertAtAsWritten(a, op.item, op.index, blank)
    ensures op.RemoveOp? ==> r == ArraySequence.RemoveAsWritten(a, op.index)
  {
    match op
    case AppendOp(x) => ArraySequence.AppendAsWritten(a, x, blank)
    case PrependOp(x) => Ok(ArraySequence.Prepend(a, x))
    case InsertAtOp(x, i) => ArraySequence.InsertAtAsWritten(a, x, i, blank)
    case RemoveOp(i) => ArraySequence.RemoveAsWritten(a, i)
  }

  /** A mutator of the mutable list code as written: InsertAt leaves the counter behind. */
  function ListEditAsWritten<T>(l: ListSequence.ListSeq<T>, op: EditOp<T>): (r: Result<ListSequence.ListSeq<T>>)
    ensures op.AppendOp? ==> r == Ok(ListSequence.Append(l, op.item))
    ensures op.PrependOp? ==> r == Ok(ListSequence.Prepend(l, op.item))
    ensures op.InsertAtOp? ==> r == ListSequence.InsertAtAsWritten(l, op.item, op.index)
    ensures op.RemoveOp? ==> r == ListSequence.Remove(l, op.index)
  {
    match op
    case AppendOp(x) => Ok(ListSequence.Append(l, x))
    case PrependOp(x) => Ok(ListSequence.Prepend(l, x))
    case InsertAtOp(x, i) => ListSequence.InsertAtAsWritten(l, x, i)
    case RemoveOp(i) => ListSequence.Remove(l, i)
  }

  /** Where the mutable code as written departs from `Apply` without recursing: Append and
      InsertAt on an array of length one and capacity one, Remove of an array slot between
      the length and the capacity, and a list InsertAt at an accepted index. */
  predicate DepartsFromIntent<T>(s: Sequence<T>, op: EditOp<T>)
    requires s.Valid()
  {
    || (s.ArrayBacked? && (op.AppendOp? || op.InsertAtOp?) && s.arr.size == 1 && s.arr.Capacity() == 1)
    || (s.ArrayBacked? && op.RemoveOp? && s.arr.size <= op.index < s.arr.Capacity())
    || (s.ListBacked? && op.InsertAtOp? && 0 <= op.index <= |s.Elements()|)
  }

  /** Dispatch of a mutator as written, on a call stack with room for `depth` more frames.
      The mutable classes, and the immutable array's Append, Prepend and InsertAt on a
      clone, run the mutable code as written. The other immutable overrides clone the
      receiver and call the same override on the clone, which is again immutable, so
      the stack runs out whatever its depth. Outside the recursion and the departures of
      the mutable code, the outcome is that of `Apply`. */
  function ApplyAsWritten<T>(s: Sequence<T>, op: EditOp<T>, blank: T, depth: nat): (r: Step<Sequence<T>>)
    requires s.Valid()
    decreases depth
    ensures RecursesForever(s, op) ==> r == Undefined
    ensures !RecursesForever(s, op) && !DepartsFromIntent(s, op) && Apply(s, op, blank).Ok? ==>
              r == Done(Apply(s, op, blank).value)
    ensures !RecursesForever(s, op) && !DepartsFromIntent(s, op) && Apply(s, op, blank).Err? ==>
              r == Thrown(Apply(s, op, blank).error)
    ensures s.ArrayBacked? && (op.AppendOp? || op.InsertAtOp?) && s.arr.size == 1 && s.arr.Capacity() == 1 ==>
              r == Thrown(IndexOutOfRange)
    ensures s.ArrayBacked? && s.variant == Mutable && op.RemoveOp? && s.arr.size <= op.index < s.arr.Capacity() ==>
              && r.Done? && r.value.ArrayBacked? && r.value.arr.size == s.arr.size - 1
              && (s.arr.size > 0 ==> r.value.Valid() && r.value.Elements() == s.Elements()[..|s.Elements()| - 1])
    ensures s.ListBacked? && s.variant == Mutable && op.InsertAtOp? && 0 <= op.index <= |s.Elements()| ==>
              && r.Done? && r.value.ListBacked?
              && r.value.lst.Elements() == Intended(s.Elements(), op).value
              && !r.value.Valid()
  {
    if RecursesForever(s, op) then
      if depth == 0 then Undefined
      else
        var clone := s;
        ApplyAsWritten(clone, op, blank, depth - 1)
    else if s.ArrayBacked? then
      var r := ArrayEditAsWritten(s.arr, op, blank);
      if r.Ok? then Done(ArrayBacked(s.variant, r.value)) else Thrown(r.error)
    else
      var r := ListEditAsWritten(s.lst, op);
      if r.Ok? then Done(ListBacked(s.variant, r.value)) else Thrown(r.error)
  }

  /** Two departures of the mutable array as written. Appending to a sequence of length
      one and capacity one throws, and removing a spare slot past the length drops
      the last element; the corrected edits give [x, y] and refuse the index. */
  lemma MutableArrayDepartures<T>(x: T, y: T, blank: T, depth: nat)
    ensures var one := ArrayBacked(Mutable, ArraySequence.Prepend(ArraySequence.Empty(), x));
            && ApplyAsWritten(one, AppendOp(y), blank, depth) == Thrown(IndexOutOfRange)
            && Apply(one, AppendOp(y), blank).value.Elements() == [x, y]
    ensures var two := ArrayBacked(Mutable, ArraySequence.AppendAll(ArraySequence.Empty(), [x, y], blank));
            && ApplyAsWritten(two, RemoveOp(5), blank, depth).Done?
            && ApplyAsWritten(two, RemoveOp(5), blank, depth).value.Elements() == [x]
            && Apply(two, RemoveOp(5), blank) == Err(IndexOutOfRange)
  {
    var a := ArraySequence.AppendAll(ArraySequence.Empty(), [x, y], blank);
    ArraySequence.AppendsFromEmpty([x, y], blank);
    assert a.Elements() == [x, y];
    assert ArraySequence.CapacityAfter(2) == 10;
    assert a.Elements()[..1] == [x];
  }

  /** An immutable list cannot be appended to as written, while the corrected dispatch
      gives a list with the item at the end. */
  lemma ImmutableListAppendOverflows<T>(l: ListSequence.ListSeq<T>, x: T, blank: T, depth: nat)
    requires l.Synced()
    ensures ApplyAsWritten(ListBacked(Immutable, l), AppendOp(x), blank, depth) == Undefined
    ensures Apply(ListBacked(Immutable, l), AppendOp(x), blank).value.Elements() == l.Elements() + [x]
  {
  }
}
