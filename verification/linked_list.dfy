/** The singly linked list (LinkedList.hpp), seen as the values its nodes hold from
    head to tail.

    This is the list as its contracts intend it: head, tail and length always agree
    with the node chain. How LinkedList.hpp's own `tail` pointer falls out of step with
    the chain is modelled separately, in module NodeChain. */
module LinkedList {
  import opened Errors

  datatype List<T> = List(items: seq<T>) {
    function Length(): nat {
      |items|
    }
  }

  /** `LinkedList()`: no nodes. */
  function Empty<T>(): (r: List<T>)
    ensures r.Length() == 0
  {
    List([])
  }

  /** `LinkedList(items, count)`: one node per item, in order.
      The caller must supply at least `count` items, as LinkedList.hpp reads them unchecked. */
  function FromItems<T>(items: seq<T>, count: int): (r: Result<List<T>>)
    requires count <= |items|
    ensures count < 0 <==> r.Err?
    ensures r.Err? ==> r.error == NegativeCount
    ensures r.Ok? ==> r.value.Length() == count
    ensures r.Ok? ==> forall i :: 0 <= i < count ==> r.value.items[i] == items[i]
  {
    if count < 0 then Err(NegativeCount) else Ok(List(items[..count]))
  }

  /** The copy constructor: walks the original's chain and links a copy of each node. */
  method Copy<T>(l: List<T>) returns (r: List<T>)
    ensures r.Length() == l.Length()
    ensures forall i :: 0 <= i < l.Length() ==> r.items[i] == l.items[i]
  {
    var copied: seq<T> := [];
    var rest := l.items;
    while rest != []
      invariant copied + rest == l.items
      decreases |rest|
    {
      copied := copied + [rest[0]];
      rest := rest[1..];
    }
    r := List(copied);
  }

  /** Follows `next` from the head `i` times and reads the node reached. */
  function Walk<T>(s: seq<T>, i: nat): (r: T)
    requires i < |s|
    ensures r == s[i]
  {
    if i == 0 then s[0] else Walk(s[1..], i - 1)
  }

  function GetFirst<T>(l: List<T>): (r: Result<T>)
    ensures r.Err? <==> l.Length() == 0
    ensures r.Err? ==> r.error == EmptyList
    ensures r.Ok? ==> r.value == l.items[0]
  {
    if l.Length() == 0 then Err(EmptyList) else Ok(l.items[0])
  }

  function GetLast<T>(l: List<T>): (r: Result<T>)
    ensures r.Err? <==> l.Length() == 0
    ensures r.Err? ==> r.error == EmptyList
    ensures r.Ok? ==> r.value == l.items[l.Length() - 1]
  {
    if l.Length() == 0 then Err(EmptyList) else Ok(l.items[l.Length() - 1])
  }

  /** `Get(index)`: an empty list reports EmptyList before the index is looked at. */
  function Get<T>(l: List<T>, index: int): (r: Result<T>)
    ensures l.Length() == 0 ==> r == Err(EmptyList)
    ensures l.Length() > 0 ==> (r.Ok? <==> 0 <= index < l.Length())
    ensures l.Length() > 0 && r.Err? ==> r.error == IndexOutOfRange
    ensures r.Ok? ==> r.value == l.items[index]
  {
    if l.Length() == 0 then Err(EmptyList)
    else if index < 0 || index >= l.Length() then Err(IndexOutOfRange)
    else Ok(Walk(l.items, index))
  }

  /** `GetSubList(lo, hi)`: a fresh list holding copies of nodes lo..hi inclusive. */
  function GetSubList<T>(l: List<T>, lo: int, hi: int): (r: Result<List<T>>)
    ensures r.Err? <==> lo < 0 || hi >= l.Length() || lo > hi
    ensures r.Err? ==> r.error == InvalidIndices
    ensures r.Ok? ==> r.value.items == l.items[lo..hi + 1]
  {
    if lo < 0 || hi >= l.Length() || lo > hi then Err(InvalidIndices)
    else
      var n := hi - lo + 1;
      var copied := seq(n, k requires 0 <= k < n => Walk(l.items, lo + k));
      assert forall k :: 0 <= k < n ==> copied[k] == Walk(l.items, lo + k);
      assert copied == l.items[lo..hi + 1];
      Ok(List(copied))
  }

  /** Links a new node after the tail. */
  function Append<T>(l: List<T>, x: T): (r: List<T>)
    ensures r.Length() == l.Length() + 1
    ensures r.items[l.Length()] == x
    ensures forall i :: 0 <= i < l.Length() ==> r.items[i] == l.items[i]
  {
    List(l.items + [x])
  }

  /** Links a new node before the head. */
  function Prepend<T>(l: List<T>, x: T): (r: List<T>)
    ensures r.Length() == l.Length() + 1
    ensures r.items[0] == x
    ensures forall i :: 0 <= i < l.Length() ==> r.items[i + 1] == l.items[i]
  {
    List([x] + l.items)
  }

  /** Walks `i` nodes in and links `x` there: at the head when `i` is 0, otherwise after
      the predecessor node. */
  function LinkAt<T>(s: seq<T>, x: T, i: nat): (r: seq<T>)
    requires i <= |s|
    ensures r == s[..i] + [x] + s[i..]
  {
    if i == 0 then [x] + s else [s[0]] + LinkAt(s[1..], x, i - 1)
  }

  /** Walks `i` nodes in and unlinks the node there, joining its predecessor to its successor. */
  function UnlinkAt<T>(s: seq<T>, i: nat): (r: seq<T>)
    requires i < |s|
    ensures r == s[..i] + s[i + 1..]
  {
    if i == 0 then s[1..] else [s[0]] + UnlinkAt(s[1..], i - 1)
  }

  /** `InsertAt(item, index)`: positions 0 through Length() are valid. */
  function InsertAt<T>(l: List<T>, x: T, index: int): (r: Result<List<T>>)
    ensures r.Err? <==> index < 0 || index > l.Length()
    ensures r.Err? ==> r.error == IndexOutOfRange
    ensures r.Ok? ==> r.value.Length() == l.Length() + 1
    ensures r.Ok? ==> r.value.items == l.items[..index] + [x] + l.items[index..]
  {
    if index > l.Length() || index < 0 then Err(IndexOutOfRange)
    else Ok(List(LinkAt(l.items, x, index)))
  }

  /** `Remove(index)`: an empty list reports EmptyList before the index is looked at. */
  function Remove<T>(l: List<T>, index: int): (r: Result<List<T>>)
    ensures l.Length() == 0 ==> r == Err(EmptyList)
    ensures l.Length() > 0 ==> (r.Ok? <==> 0 <= index < l.Length())
    ensures l.Length() > 0 && r.Err? ==> r.error == IndexOutOfRange
    ensures r.Ok? ==> r.value.Length() == l.Length() - 1
    ensures r.Ok? ==> r.value.items == l.items[..index] + l.items[index + 1..]
  {
    if l.Length() == 0 then Err(EmptyList)
    else if index < 0 || index >= l.Length() then Err(IndexOutOfRange)
    else Ok(List(UnlinkAt(l.items, index)))
  }

  /** `Concat(list)`: a null argument is refused; otherwise the receiver's values are
      followed by the argument's. Both operands keep their values. */
  function Concat<T>(l: List<T>, other: Option<List<T>>): (r: Result<List<T>>)
    ensures r.Err? <==> other.None?
    ensures r.Err? ==> r.error == NullList
    ensures r.Ok? ==> r.value.Length() == l.Length() + other.value.Length()
    ensures r.Ok? ==> forall i :: 0 <= i < l.Length() ==> r.value.items[i] == l.items[i]
    ensures r.Ok? ==> forall j :: 0 <= j < other.value.Length() ==> r.value.items[l.Length() + j] == other.value.items[j]
  {
    if other.None? then Err(NullList) else Ok(List(l.items + other.value.items))
  }

  /** Inserting a value and then removing it at the same position gives the list back. */
  lemma InsertRemoveRoundTrip<T>(l: List<T>, x: T, i: int)
    requires 0 <= i <= l.Length()
    ensures InsertAt(l, x, i).Ok?
    ensures Remove(InsertAt(l, x, i).value, i) == Ok(l)
  {
    var ins := InsertAt(l, x, i).value.items;
    assert ins[..i] == l.items[..i];
    assert ins[i + 1..] == l.items[i..];
    assert l.items[..i] + l.items[i..] == l.items;
  }

  /** Removing a value and inserting it back where it was gives the list back. */
  lemma RemoveInsertRoundTrip<T>(l: List<T>, i: int)
    requires 0 <= i < l.Length()
    ensures Remove(l, i).Ok?
    ensures InsertAt(Remove(l, i).value, l.items[i], i) == Ok(l)
  {
    var rem := Remove(l, i).value.items;
    assert rem[..i] == l.items[..i];
    assert rem[i..] == l.items[i + 1..];
    assert l.items[..i] + [l.items[i]] + l.items[i + 1..] == l.items;
  }

  /** Reading after an insertion: positions before `i` are unchanged, position `i`
      holds the new value, and later positions hold what was one place earlier. */
  lemma GetAfterInsert<T>(l: List<T>, x: T, i: int, j: int)
    requires 0 <= i <= l.Length()
    requires 0 <= j <= l.Length()
    ensures InsertAt(l, x, i).Ok?
    ensures Get(InsertAt(l, x, i).value, j) ==
              if j < i then Get(l, j) else if j == i then Ok(x) else Get(l, j - 1)
  {
  }

  /** Appending and then removing the last node, or prepending and then removing the
      first, gives the list back; the new node is the one GetLast / GetFirst report. */
  lemma EndsRoundTrip<T>(l: List<T>, x: T)
    ensures GetLast(Append(l, x)) == Ok(x)
    ensures GetFirst(Prepend(l, x)) == Ok(x)
    ensures Remove(Append(l, x), l.Length()) == Ok(l)
    ensures Remove(Prepend(l, x), 0) == Ok(l)
  {
    assert Remove(Append(l, x), l.Length()).value.items == l.items;
    assert Remove(Prepend(l, x), 0).value.items == l.items;
  }

  /** Taking sub-lists of a concatenation at the seam recovers both operands. */
  lemma ConcatSplits<T>(a: List<T>, b: List<T>)
    requires a.Length() > 0 && b.Length() > 0
    ensures Concat(a, Some(b)).Ok?
    ensures GetSubList(Concat(a, Some(b)).value, 0, a.Length() - 1) == Ok(a)
    ensures GetSubList(Concat(a, Some(b)).value, a.Length(), a.Length() + b.Length() - 1) == Ok(b)
  {
    var c := Concat(a, Some(b)).value;
    assert c.items == a.items + b.items;
    assert c.items[0..a.Length()] == a.items;
    assert c.items[a.Length()..a.Length() + b.Length()] == b.items;
  }

  /** The list test: append 1, append 2, prepend 0, insert 5 at 1, then the sub-list 1..2. */
  lemma LinkedListScenario()
    ensures var l := Prepend(Append(Append(Empty(), 1), 2), 0);
            && l.Length() == 3
            && GetFirst(l) == Ok(0) && GetLast(l) == Ok(2) && Get(l, 1) == Ok(1)
            && var l2 := InsertAt(l, 5, 1).value;
            && Get(l2, 1) == Ok(5) && Get(l2, 2) == Ok(1)
            && GetSubList(l2, 1, 2) == Ok(List([5, 1]))
  {
    var l := Prepend(Append(Append(Empty(), 1), 2), 0);
    assert l.items == [0, 1, 2];
    var l2 := InsertAt(l, 5, 1).value;
    assert l2.items == [0, 5, 1, 2];
    assert l2.items[1..3] == [5, 1];
  }
}
