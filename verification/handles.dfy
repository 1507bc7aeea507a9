/** Sequence objects as the library hands them out: through pointers.

    A mutator of a mutable sequence edits the object and returns the same pointer; a
    mutator of an immutable sequence edits a clone and returns the clone's pointer,
    leaving the receiver alone. Instance and Clone differ in the same way. Objects live
    in a store indexed by handle, standing in for addresses; no object is ever freed. */
module Handles {
  import opened Errors
  import Sequences

  datatype Store<T> = Store(objects: map<nat, Sequences.Sequence<T>>, next: nat) {

    /** Every handle was allocated, and every object is a valid sequence. */
    predicate Valid() {
      (forall h :: h in objects ==> h < next) &&
      (forall h :: h in objects ==> objects[h].Valid())
    }
  }

  /** `new`: a fresh handle for `s`; all other objects are left as they were. */
  function Alloc<T>(st: Store<T>, s: Sequences.Sequence<T>): (r: (Store<T>, nat))
    requires st.Valid() && s.Valid()
    ensures r.0.Valid()
    ensures r.1 !in st.objects
    ensures r.0.objects == st.objects[r.1 := s]
  {
    (Store(st.objects[st.next := s], st.next + 1), st.next)
  }

  /** `Clone()`: a new object equal to the receiver, of the same class. */
  function Clone<T>(st: Store<T>, h: nat): (r: (Store<T>, nat))
    requires st.Valid() && h in st.objects
    ensures r.0.Valid()
    ensures r.1 != h && r.1 !in st.objects
    ensures r.0.objects == st.objects[r.1 := st.objects[h]]
  {
    Alloc(st, st.objects[h])
  }

  /** `Instance()`: the receiver itself when mutable, a clone when immutable. */
  function Instance<T>(st: Store<T>, h: nat): (r: (Store<T>, nat))
    requires st.Valid() && h in st.objects
    ensures st.objects[h].variant == Sequences.Mutable ==> r == (st, h)
    ensures st.objects[h].variant == Sequences.Immutable ==>
              r.1 !in st.objects && r.0.objects == st.objects[r.1 := st.objects[h]]
  {
    if st.objects[h].variant == Sequences.Mutable then (st, h) else Clone(st, h)
  }

  /** A mutator call `h->Append(...)`, `h->Remove(...)` and so on, with the immutable
      overrides doing what they are evidently meant to do: edit a clone. The result is
      the store afterwards and the handle the call returns. */
  function Edit<T>(st: Store<T>, h: nat, op: Sequences.EditOp<T>, blank: T): (r: Result<(Store<T>, nat)>)
    requires st.Valid() && h in st.objects
    ensures r.Ok? <==> Sequences.Intended(st.objects[h].Elements(), op).Some?
    ensures r.Ok? ==> r.value.0.Valid() && r.value.1 in r.value.0.objects
    ensures r.Ok? ==> r.value.0.objects[r.value.1].Elements() == Sequences.Intended(st.objects[h].Elements(), op).value
    ensures r.Ok? ==> r.value.0.objects[r.value.1].variant == st.objects[h].variant
    ensures r.Ok? && st.objects[h].variant == Sequences.Mutable ==>
              r.value.1 == h && r.value.0.objects == st.objects[h := r.value.0.objects[h]]
    ensures r.Ok? && st.objects[h].variant == Sequences.Immutable ==>
              r.value.1 !in st.objects && r.value.0.objects == st.objects[r.value.1 := r.value.0.objects[r.value.1]]
  {
    var s := st.objects[h];
    var edited :- Sequences.Apply(s, op, blank);
    if s.variant == Sequences.Mutable then Ok((Store(st.objects[h := edited], st.next), h))
    else Ok(Alloc(st, edited))
  }

  /** `Concat(other)` and `GetSubsequence(lo, hi)` build a new object and change neither
      operand. */
  function Concat<T>(st: Store<T>, h: nat, g: nat): (r: Result<(Store<T>, nat)>)
    requires st.Valid() && h in st.objects && g in st.objects
    ensures r.Err? <==> Sequences.Concat(st.objects[h], st.objects[g]).Err?
    ensures r.Ok? ==> r.value.1 !in st.objects
    ensures r.Ok? ==> r.value.0.objects == st.objects[r.value.1 := Sequences.Concat(st.objects[h], st.objects[g]).value]
  {
    var joined :- Sequences.Concat(st.objects[h], st.objects[g]);
    Ok(Alloc(st, joined))
  }

  /** A clone is independent: editing it leaves the original as it was, while editing the
      original through Instance (when mutable) changes the original. */
  lemma CloneIsIndependent<T>(st: Store<T>, h: nat, op: Sequences.EditOp<T>, blank: T)
    requires st.Valid() && h in st.objects
    requires Sequences.Intended(st.objects[h].Elements(), op).Some?
    ensures var (st1, c) := Clone(st, h);
            var r := Edit(st1, c, op, blank);
            r.Ok? && r.value.0.objects[h] == st.objects[h]
    ensures st.objects[h].variant == Sequences.Mutable ==>
              var (st1, i) := Instance(st, h);
              Edit(st1, i, op, blank).value.0.objects[h].Elements() == Sequences.Intended(st.objects[h].Elements(), op).value
  {
  }

  /** Editing an immutable sequence never changes it, however many edits are made
      through the handles the edits return. */
  lemma ImmutableReceiverUnchanged<T>(st: Store<T>, h: nat, op1: Sequences.EditOp<T>, op2: Sequences.EditOp<T>, blank: T)
    requires st.Valid() && h in st.objects && st.objects[h].variant == Sequences.Immutable
    requires Edit(st, h, op1, blank).Ok?
    requires var (st1, h1) := Edit(st, h, op1, blank).value; Edit(st1, h1, op2, blank).Ok?
    ensures var (st1, h1) := Edit(st, h, op1, blank).value;
            var (st2, h2) := Edit(st1, h1, op2, blank).value;
            st2.objects[h] == st.objects[h] && st2.objects[h1] == st1.objects[h1] && h2 != h1 && h2 != h
  {
  }
}
