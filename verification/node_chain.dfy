/** The linked list at the level of its pointers (LinkedList.hpp): the chain of
    nodes reachable from the head, the `tail` pointer and the `size` counter.

    LinkedList.hpp keeps `tail` up to date in Append and in the copy constructor, but
    not in Prepend, InsertAt, Remove or Concat. The members named `...AsWritten`
    follow the code line by line and return `Undefined` where it would dereference
    a null or freed node; the members without that suffix are the corrected
    operations, proved to keep the list's invariant and to agree with the
    value-level list of module LinkedList. */
module NodeChain {
  import opened Errors
  import LinkedList

  /** Where `tail` points: nowhere, at the node in position `k` of the chain, or at
      a node that has been deleted. */
  datatype TailRef = Null | At(k: nat) | Freed

  datatype Chain<T> = Chain(nodes: seq<T>, tail: TailRef, size: int) {

    /** The invariant the list is meant to keep: `size` counts the nodes, and `tail`
        is null exactly when there are none and otherwise points at the last one. */
    predicate Valid() {
      && size == |nodes|
      && (if |nodes| == 0 then tail == Null else tail == At(|nodes| - 1))
    }

    /** The values held by the chain, head first. */
    function View(): LinkedList.List<T> {
      LinkedList.List(nodes)
    }
  }

  /** The value-level result an operation on chains stands for. */
  function ViewOf<T>(r: Result<Chain<T>>): LinkedList.List<T>
    requires r.Ok?
  {
    r.value.View()
  }

  /** Where a node pointer ends up once a node is linked in at position `i`. */
  function ShiftIn(t: TailRef, i: nat): TailRef {
    match t
    case At(k) => if k >= i then At(k + 1) else t
    case _ => t
  }

  /** Where a node pointer ends up once the node at position `i` is deleted. */
  function ShiftOut(t: TailRef, i: nat): TailRef {
    match t
    case At(k) => if k == i then Freed else if k > i then At(k - 1) else t
    case _ => t
  }

  /** Where a node pointer of one chain ends up once `n` nodes are put in front of it. */
  function Offset(t: TailRef, n: nat): TailRef {
    match t
    case At(k) => At(k + n)
    case _ => t
  }

  function Empty<T>(): (r: Chain<T>)
    ensures r.Valid() && r.nodes == []
  {
    Chain([], Null, 0)
  }

  /** The constructor from items and the copy constructor both walk to the last node
      they create and point `tail` at it; a non-empty copy takes the original's counter
      as it is, an empty one starts from 0. */
  function Rebuild<T>(nodes: seq<T>, size: int): (r: Chain<T>)
    ensures r.nodes == nodes
    ensures r.size == if |nodes| == 0 then 0 else size
    ensures r.Valid() <==> (|nodes| == 0 || size == |nodes|)
  {
    if |nodes| == 0 then Chain([], Null, 0) else Chain(nodes, At(|nodes| - 1), size)
  }

  // ----- The operations as written -----

  /** Append as written: correct whenever `tail` is where it should be. */
  function AppendAsWritten<T>(c: Chain<T>, x: T): (r: Step<Chain<T>>)
    ensures c.Valid() ==> r.Done? && r.value.Valid() && r.value.nodes == c.nodes + [x]
  {
    if |c.nodes| == 0 then Done(Chain([x], At(0), c.size + 1))
    else
      match c.tail
      case At(k) =>
        if k < |c.nodes| then Done(Chain(c.nodes[..k + 1] + [x], At(k + 1), c.size + 1)) else Undefined
      case _ => Undefined
  }

  /** Prepend as written: `tail` is never set, so prepending to an empty list leaves it null. */
  function PrependAsWritten<T>(c: Chain<T>, x: T): (r: Chain<T>)
    ensures r.nodes == [x] + c.nodes
    ensures c.Valid() ==> (r.Valid() <==> |c.nodes| > 0)
  {
    Chain([x] + c.nodes, ShiftIn(c.tail, 0), c.size + 1)
  }

  /** InsertAt as written: neither branch touches `tail`. */
  function InsertAtAsWritten<T>(c: Chain<T>, x: T, i: int): (r: Step<Chain<T>>)
    ensures (i < 0 || i > c.size) <==> r.Thrown?
    ensures r.Thrown? ==> r.error == IndexOutOfRange
    ensures c.Valid() && 0 <= i <= c.size ==> r.Done? && r.value.nodes == c.nodes[..i] + [x] + c.nodes[i..]
    ensures c.Valid() && r.Done? ==> (r.value.Valid() <==> i < |c.nodes|)
  {
    if i > c.size || i < 0 then Thrown(IndexOutOfRange)
    else if i == 0 then Done(Chain([x] + c.nodes, ShiftIn(c.tail, 0), c.size + 1))
    else if i > |c.nodes| then Undefined
    else Done(Chain(c.nodes[..i] + [x] + c.nodes[i..], ShiftIn(c.tail, i), c.size + 1))
  }

  /** Remove as written: `tail` keeps pointing at the node it pointed at, even when
      that node is the one deleted. */
  function RemoveAsWritten<T>(c: Chain<T>, i: int): (r: Step<Chain<T>>)
    ensures c.size == 0 ==> r == Thrown(EmptyList)
    ensures c.size != 0 && (i < 0 || i >= c.size) ==> r == Thrown(IndexOutOfRange)
    ensures c.Valid() && 0 <= i < c.size ==> r.Done? && r.value.nodes == c.nodes[..i] + c.nodes[i + 1..]
    ensures c.Valid() && r.Done? ==> (r.value.Valid() <==> i < |c.nodes| - 1)
  {
    if c.size == 0 then Thrown(EmptyList)
    else if i < 0 || i >= c.size then Thrown(IndexOutOfRange)
    else if i >= |c.nodes| then Undefined
    else Done(Chain(c.nodes[..i] + c.nodes[i + 1..], ShiftOut(c.tail, i), c.size - 1))
  }

  /** GetLast as written: reads through `tail`. */
  function GetLastAsWritten<T>(c: Chain<T>): (r: Step<T>)
    ensures |c.nodes| == 0 <==> r == Thrown(EmptyList)
    ensures c.Valid() && |c.nodes| > 0 ==> r == Done(c.nodes[|c.nodes| - 1])
  {
    if |c.nodes| == 0 then Thrown(EmptyList)
    else
      match c.tail
      case At(k) => if k < |c.nodes| then Done(c.nodes[k]) else Undefined
      case _ => Undefined
  }

  /** Concat as written: copies the receiver, links the argument's head after the
      copy's tail, and takes over the argument's `tail`. */
  function ConcatAsWritten<T>(c: Chain<T>, other: Option<Chain<T>>): (r: Step<Chain<T>>)
    ensures other.None? <==> r == Thrown(NullList)
    ensures other.Some? && |c.nodes| == 0 ==> r == Undefined
    ensures c.Valid() && other.Some? && other.value.Valid() && |c.nodes| > 0 ==>
              && r.Done?
              && r.value.nodes == c.nodes + other.value.nodes
              && (r.value.Valid() <==> |other.value.nodes| > 0)
  {
    if other.None? then Thrown(NullList)
    else
      var copy := Rebuild(c.nodes, c.size);
      var o := other.value;
      if copy.tail.Null? then Undefined
      else Done(Chain(copy.nodes + o.nodes, Offset(o.tail, |copy.nodes|), copy.size + o.size))
  }

  // ----- The corrected operations -----

  /** Append needs no correction. */
  function Append<T>(c: Chain<T>, x: T): (r: Chain<T>)
    requires c.Valid()
    ensures r.Valid()
    ensures r.View() == LinkedList.Append(c.View(), x)
  {
    AppendAsWritten(c, x).value
  }

  /** Prepend that points `tail` at the new node when the list was empty. */
  function Prepend<T>(c: Chain<T>, x: T): (r: Chain<T>)
    requires c.Valid()
    ensures r.Valid()
    ensures r.View() == LinkedList.Prepend(c.View(), x)
  {
    var tail := if |c.nodes| == 0 then At(0) else ShiftIn(c.tail, 0);
    Chain([x] + c.nodes, tail, c.size + 1)
  }

  /** InsertAt that points `tail` at the new node when it is linked last. */
  function InsertAt<T>(c: Chain<T>, x: T, i: int): (r: Result<Chain<T>>)
    requires c.Valid()
    ensures r.Ok? ==> r.value.Valid()
    ensures r.Ok? == LinkedList.InsertAt(c.View(), x, i).Ok?
    ensures r.Err? ==> r.error == IndexOutOfRange
    ensures r.Ok? ==> LinkedList.InsertAt(c.View(), x, i) == Ok(ViewOf(r))
  {
    if i > c.size || i < 0 then Err(IndexOutOfRange)
    else
      var tail := if i == |c.nodes| then At(i) else ShiftIn(c.tail, i);
      Ok(Chain(c.nodes[..i] + [x] + c.nodes[i..], tail, c.size + 1))
  }

  /** Remove that moves `tail` back to the predecessor when the last node goes, and to
      null when the only node goes. */
  function Remove<T>(c: Chain<T>, i: int): (r: Result<Chain<T>>)
    requires c.Valid()
    ensures r.Ok? ==> r.value.Valid()
    ensures r.Ok? == LinkedList.Remove(c.View(), i).Ok?
    ensures r.Err? ==> r.error == LinkedList.Remove(c.View(), i).error
    ensures r.Ok? ==> LinkedList.Remove(c.View(), i) == Ok(ViewOf(r))
  {
    if c.size == 0 then Err(EmptyList)
    else if i < 0 || i >= c.size then Err(IndexOutOfRange)
    else
      var tail := if i == |c.nodes| - 1 then (if i == 0 then Null else At(i - 1)) else ShiftOut(c.tail, i);
      Ok(Chain(c.nodes[..i] + c.nodes[i + 1..], tail, c.size - 1))
  }

  /** GetLast through `tail`; on a valid chain it reads the last node. */
  function GetLast<T>(c: Chain<T>): (r: Result<T>)
    requires c.Valid()
    ensures r == LinkedList.GetLast(c.View())
  {
    match GetLastAsWritten(c)
    case Done(v) => Ok(v)
    case _ => Err(EmptyList)
  }

  /** Concat that starts from the argument when the receiver is empty, and keeps the
      receiver's `tail` when the argument is empty. */
  function Concat<T>(c: Chain<T>, other: Option<Chain<T>>): (r: Result<Chain<T>>)
    requires c.Valid()
    requires other.Some? ==> other.value.Valid()
    ensures r.Ok? ==> r.value.Valid()
    ensures r.Err? <==> other.None?
    ensures r.Err? ==> r.error == NullList
    ensures r.Ok? ==> LinkedList.Concat(c.View(), Some(other.value.View())) == Ok(ViewOf(r))
  {
    if other.None? then Err(NullList)
    else
      var o := other.value;
      var tail := if |o.nodes| == 0 then c.tail else Offset(o.tail, |c.nodes|);
      Ok(Chain(c.nodes + o.nodes, tail, c.size + o.size))
  }

  // ----- Where the code as written goes wrong -----

  /** Prepending to an empty list, or inserting at 0 into one, leaves `tail` null:
      reading the last value or appending then dereferences it. */
  lemma PrependOnEmptyLosesTail<T>(x: T, y: T)
    ensures GetLastAsWritten(PrependAsWritten(Empty(), x)) == Undefined
    ensures AppendAsWritten(PrependAsWritten(Empty(), x), y) == Undefined
    ensures InsertAtAsWritten(Empty(), x, 0) == Done(PrependAsWritten(Empty(), x))
    ensures GetLast(Prepend(Empty(), x)) == Ok(x)
  {
  }

  /** Inserting at the end leaves `tail` on the old last node: GetLast reports that
      node, and a following Append links after it, dropping the inserted node while
      the counter still counts it. */
  lemma InsertAtEndLeavesTailBehind<T>(a: T, b: T, c: T)
    ensures var one := Rebuild([a], 1);
            var two := InsertAtAsWritten(one, b, 1).value;
            && two.nodes == [a, b]
            && GetLastAsWritten(two) == Done(a)
            && AppendAsWritten(two, c) == Done(Chain([a, c], At(1), 3))
            && GetLast(InsertAt(one, b, 1).value) == Ok(b)
  {
    var one := Rebuild([a], 1);
    var two := InsertAtAsWritten(one, b, 1).value;
    assert two.nodes == [a, b];
    assert two.tail == At(0);
    assert two.nodes[..1] + [c] == [a, c];
  }

  /** Removing the last node leaves `tail` pointing at the deleted node, so the next
      GetLast reads freed memory and the next Append writes through it. */
  lemma RemoveLastFreesTail<T>(a: T, b: T, c: T)
    ensures var two := Rebuild([a, b], 2);
            && RemoveAsWritten(two, 1).Done?
            && RemoveAsWritten(two, 1).value.tail == Freed
            && GetLastAsWritten(RemoveAsWritten(two, 1).value) == Undefined
            && AppendAsWritten(RemoveAsWritten(two, 1).value, c) == Undefined
            && GetLast(Remove(two, 1).value) == Ok(a)
  {
    var two := Rebuild([a, b], 2);
    assert two.nodes[..1] + two.nodes[2..] == [a];
  }

  /** Concat dereferences the copy's null `tail` when the receiver is empty, and
      takes over a null `tail` when the argument is empty. */
  lemma ConcatLosesTail<T>(a: T)
    ensures ConcatAsWritten(Empty(), Some(Rebuild([a], 1))) == Undefined
    ensures ConcatAsWritten(Rebuild([a], 1), Some(Empty())).Done?
    ensures GetLastAsWritten(ConcatAsWritten(Rebuild([a], 1), Some(Empty())).value) == Undefined
    ensures Concat(Empty(), Some(Rebuild([a], 1))) == Ok(Rebuild([a], 1))
    ensures GetLast(Concat(Rebuild([a], 1), Some(Empty())).value) == Ok(a)
  {
    assert [a] + [] == [a];
    assert [] + [a] == [a];
  }
}
