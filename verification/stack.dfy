/** ArrayStack and ListStack (Stack.hpp): a mutable sequence of either storage whose
    last element is the top. Push appends; Pop and Top refuse an empty stack with
    EmptyStack before touching the sequence. */
module Stack {
  import opened Errors
  import Sequences

  datatype Stack<T> = Stack(s: Sequences.Sequence<T>) {

    predicate Valid() {
      s.Valid() && s.variant == Sequences.Mutable
    }

    /** Bottom first, top last. */
    function Elements(): seq<T>
      requires Valid()
    {
      s.Elements()
    }
  }

  function Push<T>(st: Stack<T>, x: T, blank: T): (r: Stack<T>)
    requires st.Valid()
    ensures r.Valid() && r.Elements() == st.Elements() + [x]
    ensures r.s.ArrayBacked? == st.s.ArrayBacked?
  {
    Stack(Sequences.Append(st.s, x, blank))
  }

  function Top<T>(st: Stack<T>): (r: Result<T>)
    requires st.Valid()
    ensures r.Err? <==> st.Elements() == []
    ensures r.Err? ==> r.error == EmptyStack
    ensures r.Ok? ==> r.value == st.Elements()[|st.Elements()| - 1]
  {
    if Sequences.IsEmpty(st.s) then Err(EmptyStack) else Sequences.GetLast(st.s)
  }

  /** `Pop()`: the top element, and the stack without it. */
  function Pop<T>(st: Stack<T>): (r: Result<(T, Stack<T>)>)
    requires st.Valid()
    ensures r.Err? <==> st.Elements() == []
    ensures r.Err? ==> r.error == EmptyStack
    ensures r.Ok? ==> r.value.0 == st.Elements()[|st.Elements()| - 1]
    ensures r.Ok? ==> r.value.1.Valid() && r.value.1.Elements() == st.Elements()[..|st.Elements()| - 1]
    ensures r.Ok? ==> r.value.1.s.ArrayBacked? == st.s.ArrayBacked?
  {
    if Sequences.IsEmpty(st.s) then Err(EmptyStack)
    else
      var item := Sequences.GetLast(st.s).value;
      var rest := Sequences.Remove(st.s, Sequences.GetLength(st.s) - 1).value;
      assert rest.Elements() == st.Elements()[..|st.Elements()| - 1];
      Ok((item, Stack(rest)))
  }

  /** Push then Pop gives back the pushed item and the previous contents. */
  lemma PushPop<T>(st: Stack<T>, x: T, blank: T)
    requires st.Valid()
    ensures Top(Push(st, x, blank)) == Ok(x)
    ensures Pop(Push(st, x, blank)).Ok?
    ensures Pop(Push(st, x, blank)).value.0 == x
    ensures Pop(Push(st, x, blank)).value.1.Elements() == st.Elements()
  {
    assert (st.Elements() + [x])[..|st.Elements()|] == st.Elements();
  }

  /** Pushes the items one by one, in order. */
  function PushAll<T>(st: Stack<T>, xs: seq<T>, blank: T): (r: Stack<T>)
    requires st.Valid()
    ensures r.Valid() && r.Elements() == st.Elements() + xs
  {
    if xs == [] then st
    else
      assert xs == xs[..|xs| - 1] + [xs[|xs| - 1]];
      Push(PushAll(st, xs[..|xs| - 1], blank), xs[|xs| - 1], blank)
  }

  /** Pops `n` times, collecting the popped items in the order they came off. */
  function PopMany<T>(st: Stack<T>, n: nat): (r: Result<(seq<T>, Stack<T>)>)
    requires st.Valid()
    decreases n
    ensures r.Ok? ==> r.value.1.Valid() && |r.value.0| == n
  {
    if n == 0 then Ok(([], st))
    else
      var (top, rest) :- Pop(st);
      var (more, bottom) :- PopMany(rest, n - 1);
      Ok(([top] + more, bottom))
  }

  function Reverse<T>(xs: seq<T>): seq<T> {
    if xs == [] then [] else [xs[|xs| - 1]] + Reverse(xs[..|xs| - 1])
  }

  /** Last in, first out: popping as many items as were on top of `pre` gives them back
      in reverse order, and leaves `pre`. */
  lemma {:induction false} PopManyReverses<T>(st: Stack<T>, pre: seq<T>, xs: seq<T>)
    requires st.Valid() && st.Elements() == pre + xs
    decreases |xs|
    ensures PopMany(st, |xs|).Ok?
    ensures PopMany(st, |xs|).value.0 == Reverse(xs)
    ensures PopMany(st, |xs|).value.1.Elements() == pre
  {
    if xs == [] {
      assert pre + xs == pre;
    } else {
      var front := xs[..|xs| - 1];
      assert pre + xs == (pre + front) + [xs[|xs| - 1]];
      var (top, rest) := Pop(st).value;
      assert rest.Elements() == pre + front;
      PopManyReverses(rest, pre, front);
    }
  }

  /** Pushing a run of items and popping as many gives them back reversed. */
  lemma PushAllPopManyReverses<T>(st: Stack<T>, xs: seq<T>, blank: T)
    requires st.Valid()
    ensures PopMany(PushAll(st, xs, blank), |xs|).Ok?
    ensures PopMany(PushAll(st, xs, blank), |xs|).value.0 == Reverse(xs)
    ensures PopMany(PushAll(st, xs, blank), |xs|).value.1.Elements() == st.Elements()
  {
    PopManyReverses(PushAll(st, xs, blank), st.Elements(), xs);
  }

  /** The array-stack test: push "hello" and "world", pop "world", then "hello" is on
      top of a stack of one. */
  lemma ArrayStackScenario(a: Stack<string>, blank: string)
    requires a.Valid() && a.s.ArrayBacked? && a.Elements() == []
    ensures var st := Push(Push(a, "hello", blank), "world", blank);
            && Top(st) == Ok("world")
            && Pop(st).Ok? && Pop(st).value.0 == "world"
            && Top(Pop(st).value.1) == Ok("hello")
            && Sequences.GetLength(Pop(st).value.1.s) == 1
  {
    var st := Push(Push(a, "hello", blank), "world", blank);
    assert st.Elements() == ["hello", "world"];
    assert Pop(st).value.1.Elements() == ["hello"];
  }

  /** The list-stack test: push 3 and 2, pop 2, and 3 is at index 0. */
  lemma ListStackScenario(l: Stack<int>, blank: int)
    requires l.Valid() && l.s.ListBacked? && l.Elements() == []
    ensures var st := Push(Push(l, 3, blank), 2, blank);
            && Top(st) == Ok(2)
            && Pop(st).Ok? && Pop(st).value.0 == 2
            && Sequences.Get(Pop(st).value.1.s, 0) == Ok(3)
  {
    var st := Push(Push(l, 3, blank), 2, blank);
    assert st.Elements() == [3, 2];
    assert Pop(st).value.1.Elements() == [3];
  }
}
