# Generic sequences: a Dafny model

This project models a small C++ template library of sequence containers. It is built in layers:

- **Storage.** `DynamicArray`, a fixed-size buffer that can be resized. `LinkedList`, a singly linked list with `root`, `tail` and a `size` counter.
- **Sequences.** These implement the `Sequence` interface:
  - `MutableArraySequence` is a buffer plus a logical length. Its capacity grows when it is full.
  - `MutableListSequence` is a list plus a cached counter.
  - Each has an immutable variant. Its mutators edit a clone and return the clone.
- **Adapters.** The adapters are built on a mutable sequence of either storage:
  - `ArrayStack`/`ListStack` (last in, first out).
  - `ArrayQueue`/`ListQueue` (first in, first out, with a round-robin merge `Clutch`).
  - `ArrayDeque`/`ListDeque`.

Everything is a value. An operation returns the new container instead of changing one in place. A thrown exception is an `Err` of the error kind it carries (module `Errors`).

The pointer identity of sequence objects only matters for the difference between mutable and immutable mutators. That part is modelled in module `Handles`, as a store of objects indexed by handle.

Where the code departs from its evident intent, two members are given:

- A `...AsWritten` member that follows the code. It returns `Undefined` where C++ leaves the behaviour undefined: a null or freed dereference, a write past a buffer, or recursion without end.
- A corrected member, which the rest of the model uses.

The sequence-level as-written members are also composed into the dispatch `Sequences.ApplyAsWritten`, which states how each departure shows to a caller.

The departures are listed under "Findings".

Modules, one per file:

| file | module | models |
|---|---|---|
| errors.dfy | `Errors` | the error kinds of `error.hpp`; `Result`, `Option`, `Step` |
| dynamic_array.dfy | `DynamicArray` | `DynamicArray.hpp` |
| linked_list.dfy | `LinkedList` | `LinkedList.hpp`, as values from head to tail |
| node_chain.dfy | `NodeChain` | `LinkedList.hpp` at the level of `tail` and `size` |
| array_sequence.dfy | `ArraySequence` | `MutableArraySequence` |
| list_sequence.dfy | `ListSequence` | `MutableListSequence` |
| sequences.dfy | `Sequences` | the `Sequence` interface over the four concrete classes |
| handles.dfy | `Handles` | objects behind pointers: Instance, Clone, and mutators that return a pointer |
| stack.dfy | `Stack` | `Stack.hpp` |
| queue.dfy | `Queue` | `Queue.hpp` |
| deque.dfy | `Deque` | `Deque.hpp` |

Some inputs are parameters:

- `blank: T` is the value a default-constructed `T` has. It fills fresh buffer slots.
- `depth: nat` is the room left on the call stack.

## Model

| member | source | states |
|---|---|---|
| DynamicArray.FromItems | DynamicArray.hpp:34-42 | a negative count throws NegativeSize; otherwise the buffer has `count` slots holding the first `count` items in order |
| DynamicArray.Make | DynamicArray.hpp:45-50 | a negative size throws NegativeSize; otherwise every one of the `size` slots is freshly default-constructed |
| DynamicArray.Copy | DynamicArray.hpp:53-58 | the copy has the same size, and every slot equals the original's slot |
| DynamicArray.Get | DynamicArray.hpp:64-68 | succeeds exactly for indices inside the buffer, and returns that slot; otherwise IndexOutOfRange |
| DynamicArray.Set | DynamicArray.hpp:110-113 | succeeds exactly for indices inside the buffer; only that slot changes, and the size is kept |
| DynamicArray.Remove | DynamicArray.hpp:86-107 | an empty buffer is left alone; otherwise an index outside is IndexOutOfRange, and a valid one yields the slots before it followed by the slots after it |
| DynamicArray.RemoveTakesOne | DynamicArray.hpp:86-107 | removing slot i takes exactly the element at i out of the multiset of contents |
| DynamicArray.Resize | DynamicArray.hpp:116-128 | a negative size throws NegativeSize; otherwise the new size is as asked, the common prefix is kept and slots past the old size are fresh |
| DynamicArray.ResizeRoundTrip | DynamicArray.hpp:116-128 | growing a buffer and resizing it back to its old size restores it exactly |
| DynamicArray.ResizeShrinkKeepsPrefix | DynamicArray.hpp:116-128 | shrinking to n keeps exactly the first n slots |
| DynamicArray.CopyLoop | DynamicArray.hpp:121-122 | the unchecked copy loop writes out of bounds exactly when the buffer copied from is longer than the destination; otherwise it overwrites the destination's leading slots with that buffer's |
| DynamicArray.ResizeAsWritten | DynamicArray.hpp:116-128 | as written, every shrink (0 <= newSize < size) is undefined behaviour; whenever it completes it agrees with the corrected Resize |
| DynamicArray.GetSubArray | DynamicArray.hpp:131-143 | indices with lo < 0, hi past the end or lo > hi throw InvalidIndices; otherwise the result holds slots lo..hi inclusive, in order |
| DynamicArray.SubArrayComposes | DynamicArray.hpp:131-143 | the full range is the buffer itself, and a range of a range is the matching range of the original |
| DynamicArray.Equals | DynamicArray.hpp:160-169 | the slot-by-slot comparison returns true exactly when the two buffers are equal |
| DynamicArray.DynamicArrayScenario | test.hpp:18-44 | the buffer test's steps give [10, 20, 30], size 5 after growing, [10, 20] after shrinking, and [10] after a removal |
| DynamicArray.ResizeShrinkOverflows | DynamicArray.hpp:121-122 | the test's shrink from 5 to 2 writes past the new buffer as written; the corrected Resize gives [10, 20] |
| LinkedList.Empty | LinkedList.hpp:66-70 | the default list has no nodes |
| LinkedList.FromItems | LinkedList.hpp:42-63 | a negative count throws NegativeCount; otherwise one node per item, in order |
| LinkedList.Copy | LinkedList.hpp:73-94 | the copy holds the same values in the same order |
| LinkedList.Walk | LinkedList.hpp:121-136 | following `next` i times from the head reaches the value at position i |
| LinkedList.GetFirst | LinkedList.hpp:107-111 | an empty list throws EmptyList; otherwise the head's value |
| LinkedList.GetLast | LinkedList.hpp:114-118 | an empty list throws EmptyList; otherwise the value of the last node |
| LinkedList.Get | LinkedList.hpp:121-136 | EmptyList takes precedence over the index check; a valid index gives the value at that position, any other IndexOutOfRange |
| LinkedList.GetSubList | LinkedList.hpp:139-157 | invalid bounds throw InvalidIndices; otherwise the new list holds positions lo..hi inclusive |
| LinkedList.Append | LinkedList.hpp:172-181 | the length grows by one, the new value is last and all earlier positions are unchanged |
| LinkedList.Prepend | LinkedList.hpp:184-188 | the length grows by one, the new value is first and the old values follow, shifted by one |
| LinkedList.LinkAt | LinkedList.hpp:191-210 | linking after the predecessor found by walking places the value at position i, with the old values around it |
| LinkedList.UnlinkAt | LinkedList.hpp:213-234 | bypassing the node at i leaves the values before and after it, in order |
| LinkedList.InsertAt | LinkedList.hpp:191-210 | positions 0 through the length are accepted, others throw IndexOutOfRange; the value lands at the index with the rest moved along |
| LinkedList.Remove | LinkedList.hpp:213-234 | an empty list throws EmptyList, a bad index IndexOutOfRange; otherwise exactly the value at the index goes |
| LinkedList.Concat | LinkedList.hpp:237-247 | a null argument throws NullList; otherwise the receiver's values followed by the argument's |
| LinkedList.InsertRemoveRoundTrip | LinkedList.hpp:191-234 | inserting at any valid position and removing there gives the list back |
| LinkedList.RemoveInsertRoundTrip | LinkedList.hpp:191-234 | removing at a valid position and inserting the removed value there gives the list back |
| LinkedList.GetAfterInsert | LinkedList.hpp:191-210 | after inserting at i, reads below i are unchanged, i reads the new value, and reads above i see the old value one place earlier |
| LinkedList.EndsRoundTrip | LinkedList.hpp:172-188 | GetLast after Append and GetFirst after Prepend read the new value, and removing it again restores the list |
| LinkedList.ConcatSplits | LinkedList.hpp:237-247 | the sub-lists of a concatenation at the seam are the two operands |
| LinkedList.LinkedListScenario | test.hpp:46-69 | the list test: [0, 1, 2], then [0, 5, 1, 2] after inserting 5 at 1, with sub-list [5, 1] |
| NodeChain.Empty | LinkedList.hpp:66-70 | the default list satisfies the tail/size invariant with no nodes |
| NodeChain.Rebuild | LinkedList.hpp:73-94 | the copy points tail at its last node; it satisfies the invariant exactly when the original's counter was right or it is empty |
| NodeChain.AppendAsWritten | LinkedList.hpp:172-181 | on a list that keeps the invariant, Append links the value last and keeps the invariant |
| NodeChain.PrependAsWritten | LinkedList.hpp:184-188 | Prepend puts the value first but keeps the invariant only when the list was non-empty (tail stays null otherwise) |
| NodeChain.InsertAtAsWritten | LinkedList.hpp:191-210 | the index check throws IndexOutOfRange exactly outside 0..size; a valid list gets the right values, but keeps the invariant only when the position was not the end |
| NodeChain.RemoveAsWritten | LinkedList.hpp:213-234 | EmptyList, then IndexOutOfRange, as the checks say; the right node goes, but the invariant survives only when it was not the last one |
| NodeChain.GetLastAsWritten | LinkedList.hpp:114-118 | an empty chain throws EmptyList; on a list keeping the invariant, reading through tail gives the last value |
| NodeChain.ConcatAsWritten | LinkedList.hpp:237-247 | a null argument throws NullList; an empty receiver is undefined; otherwise the values are joined, and the invariant holds only when the argument was non-empty |
| NodeChain.Append | LinkedList.hpp:172-181 | keeps the tail/size invariant and agrees with LinkedList.Append |
| NodeChain.Prepend | LinkedList.hpp:184-188 | keeps the invariant and agrees with LinkedList.Prepend |
| NodeChain.InsertAt | LinkedList.hpp:191-210 | keeps the invariant, and fails or succeeds exactly as LinkedList.InsertAt, with the same list |
| NodeChain.Remove | LinkedList.hpp:213-234 | keeps the invariant, and fails with the same error or gives the same list as LinkedList.Remove |
| NodeChain.GetLast | LinkedList.hpp:114-118 | on a list keeping the invariant, reading through tail is LinkedList.GetLast |
| NodeChain.Concat | LinkedList.hpp:237-247 | NullList exactly for a null argument; otherwise keeps the invariant and agrees with LinkedList.Concat |
| NodeChain.PrependOnEmptyLosesTail | LinkedList.hpp:184-200 | after prepending to an empty list, GetLast and Append dereference a null tail; the corrected Prepend reads back the value |
| NodeChain.InsertAtEndLeavesTailBehind | LinkedList.hpp:197-208 | inserting b at the end of [a] leaves GetLast reporting a, and a following Append drops b while the counter says 3 |
| NodeChain.RemoveLastFreesTail | LinkedList.hpp:225-233 | removing the last of [a, b] leaves tail on the freed node, so GetLast and the next Append go through freed memory; the corrected Remove leaves GetLast reporting a |
| NodeChain.ConcatLosesTail | LinkedList.hpp:241-245 | an empty receiver makes Concat dereference null, and an empty argument hands a null tail to the result; the corrected Concat does neither |
| ArraySequence.Empty | ArraySequence.hpp:44-47 | the default sequence has no elements and no capacity |
| ArraySequence.FromItems | ArraySequence.hpp:50-53 | a negative count throws NegativeSize; otherwise length and capacity are count, holding the first count items |
| ArraySequence.FromArray | ArraySequence.hpp:62-65 | every slot of the given buffer is in logical use, in order |
| ArraySequence.GetFirst | ArraySequence.hpp:73-76 | an empty sequence throws EmptyArray; otherwise the first element |
| ArraySequence.GetLast | ArraySequence.hpp:79-82 | an empty sequence throws EmptyArray; otherwise the last element |
| ArraySequence.Get | ArraySequence.hpp:85-87 | the read is checked against the capacity, not the length; inside the length it returns the element |
| ArraySequence.GetPastLengthReadsSpareSlot | ArraySequence.hpp:85-87 | with spare capacity, reading at the length succeeds and returns a spare slot |
| ArraySequence.GetSubsequence | ArraySequence.hpp:100-105 | bounds are checked against the capacity (InvalidIndices); within the length the result is the slice lo..hi inclusive |
| ArraySequence.Concat | ArraySequence.hpp:108-119 | the new sequence holds the receiver's elements then the argument's, with no spare capacity |
| ArraySequence.NewCapacity | ArraySequence.hpp:125 | the corrected growth always makes room for one more element; it is 10 from empty and one and a half times the length from 2 on |
| ArraySequence.GrowthAsWritten | ArraySequence.hpp:125 | the growth as written agrees with the corrected one except at length 1, where it does not grow |
| ArraySequence.AppendGrowingTo | ArraySequence.hpp:122-132 | the store succeeds exactly when the grown or current buffer has a slot at the length, and then the length goes up by one |
| ArraySequence.Append | ArraySequence.hpp:122-132 | the item goes last, and the capacity changes only when the sequence was full, to the corrected growth |
| ArraySequence.AppendAsWritten | ArraySequence.hpp:122-132 | as written, Append fails with IndexOutOfRange at length 1 and capacity 1, and otherwise equals the corrected Append |
| ArraySequence.Prepend | ArraySequence.hpp:135-152 | the item goes first and the old elements follow, in a buffer with no spare slot |
| ArraySequence.InsertGrowingTo | ArraySequence.hpp:155-167 | an index outside 0..length throws IndexOutOfRange, as does a full buffer that did not grow past the length; otherwise the item lands at the index with the rest moved along |
| ArraySequence.InsertAt | ArraySequence.hpp:155-167 | positions 0 through the length are accepted; the item lands at the index with the rest moved along, and the capacity grows only when full |
| ArraySequence.InsertAtAsWritten | ArraySequence.hpp:155-167 | as written, InsertAt fails at length 1 and capacity 1, and otherwise equals the corrected InsertAt |
| ArraySequence.Remove | ArraySequence.hpp:170-175 | no capacity throws EmptyArray; an index outside the elements IndexOutOfRange; otherwise exactly that element goes and one slot is freed |
| ArraySequence.RemoveAsWritten | ArraySequence.hpp:170-175 | as written, the index is only checked against the capacity and the length always drops by one: removing a spare slot past the length drops the last element, or leaves the length at -1 on an empty sequence; within the length it agrees with the corrected Remove |
| ArraySequence.RemovePastLengthGoesNegative | ArraySequence.hpp:170-175 | after one Append and one Remove, Remove(0) as written succeeds and leaves length -1; the corrected one refuses it |
| ArraySequence.AppendAfterPrependFails | ArraySequence.hpp:125-161 | prepending to an empty sequence leaves length 1 and capacity 1, after which Append and InsertAt as written fail while the corrected ones succeed |
| ArraySequence.EndsRoundTrip | ArraySequence.hpp:122-175 | GetFirst after Prepend and GetLast after Append read the new item, and removing it restores the elements |
| ArraySequence.InsertRemoveRoundTrip | ArraySequence.hpp:155-175 | inserting at any valid index and removing there restores the elements |
| ArraySequence.ConcatSplits | ArraySequence.hpp:100-119 | the sub-sequences of a concatenation at the seam are the two operands |
| ArraySequence.AppendAll | ArraySequence.hpp:122-132 | appending items one by one gives the old elements followed by the items |
| ArraySequence.AppendsFromEmpty | ArraySequence.hpp:122-132 | after n appends from empty the length is n and the capacity follows the growth rule step by step |
| ArraySequence.ReadPastPrefix | ArraySequence.hpp:85-87 | in a sequence whose elements are a prefix followed by xs, Get at the prefix length + i reads xs[i] |
| ArraySequence.AppendAllReadsBack | ArraySequence.hpp:85-132 | every appended item is read back at the index it was appended at |
| ArraySequence.ElevenAppends | ArraySequence.hpp:122-132 | the first append gives capacity 10, the eleventh grows it to 15, and item 10 is at index 10 |
| ArraySequence.ArraySequenceScenario | test.hpp:71-91 | the sequence test: [0, 1, 2], then 5 inserted at 1, and the sub-sequence 1..3 starting with 5 |
| ListSequence.Empty | ListSequence.hpp:44-47 | the default sequence is empty with its counter in step |
| ListSequence.FromItems | ListSequence.hpp:50-53 | a negative count throws NegativeCount; otherwise the first count items, counter in step |
| ListSequence.FromList | ListSequence.hpp:62-65 | the counter is taken from the list, so the sequence is in step |
| ListSequence.GetFirst | ListSequence.hpp:73-75 | an empty list throws EmptyList; otherwise the first element |
| ListSequence.GetLast | ListSequence.hpp:78-82 | reads at position counter - 1 (not below 0); with the counter in step that is LinkedList.GetLast |
| ListSequence.Get | ListSequence.hpp:85-87 | EmptyList before the index check; a valid index reads the element there |
| ListSequence.GetLength | ListSequence.hpp:90-92 | the length is the list's, which equals the counter when in step |
| ListSequence.GetSubsequence | ListSequence.hpp:95-100 | invalid bounds throw InvalidIndices; otherwise the slice lo..hi inclusive, in step |
| ListSequence.Concat | ListSequence.hpp:108-113 | the receiver's elements then the argument's, in step |
| ListSequence.Append | ListSequence.hpp:116-120 | the item goes last and a sequence in step stays in step |
| ListSequence.Prepend | ListSequence.hpp:123-127 | the item goes first and a sequence in step stays in step |
| ListSequence.InsertAt | ListSequence.hpp:130-133 | positions 0 through the length; the item lands at the index and the counter stays in step |
| ListSequence.InsertAtAsWritten | ListSequence.hpp:130-133 | as written, the elements are those of the corrected InsertAt but the counter is unchanged, so a sequence in step falls out of step |
| ListSequence.Remove | ListSequence.hpp:136-141 | an empty list throws EmptyList, a bad index IndexOutOfRange; otherwise that element goes and the counter stays in step |
| ListSequence.StaleSizeMisreadsLast | ListSequence.hpp:78-82 | after inserting 3 at the end of [1, 2] as written, GetLast reports 2 although the list ends in 3 |
| ListSequence.EndsRoundTrip | ListSequence.hpp:116-141 | GetLast after Append and GetFirst after Prepend read the new item, and removing it restores the sequence |
| ListSequence.InsertRemoveRoundTrip | ListSequence.hpp:130-141 | inserting at any valid index and removing there restores the sequence |
| ListSequence.ListSequenceScenario | test.hpp:93-114 | the sequence test's reads hold with InsertAt as written: [0, 5, 1, 2] and a sub-sequence starting with 5 |
| Sequences.EmptyLike | Queue.hpp:113-127 | a fresh mutable sequence of the same storage, with no elements |
| Sequences.GetFirst | Sequence.hpp:6-37 | an empty sequence throws its storage's empty error; otherwise the first element |
| Sequences.GetLast | Sequence.hpp:6-37 | an empty sequence throws its storage's empty error; otherwise the last element |
| Sequences.Get | Sequence.hpp:6-37 | every element reads back at its index; past the end a list fails, an array only past its capacity |
| Sequences.GetLength | Sequence.hpp:6-37 | the number of elements, whichever the storage |
| Sequences.IsEmpty | Stack.hpp:95-96 | true exactly when the sequence has no elements; the stack, queue and deque adapters all ask this of their sequence |
| Sequences.GetSubsequence | Sequence.hpp:6-37 | a valid range gives the slice as a mutable sequence of the same storage, whatever the receiver's variant |
| Sequences.Concat | ArraySequence.hpp:108-119 | Concat succeeds exactly for the same storage, where an immutable array needs an immutable argument; it joins the elements; list results are mutable |
| Sequences.ConcatIsNotSymmetric | ArraySequence.hpp:218-231 | a mutable array accepts an immutable one, but an immutable array refuses a mutable one |
| Sequences.ConcatSplits | ArraySequence.hpp:108-119 | the receiver comes back out of an accepted Concat as its leading sub-sequence, and the lengths add |
| Sequences.Append | Sequence.hpp:6-37 | the item goes last; variant and storage are kept |
| Sequences.Prepend | Sequence.hpp:6-37 | the item goes first; variant and storage are kept |
| Sequences.InsertAt | Sequence.hpp:6-37 | positions 0 through the length, others IndexOutOfRange; the item lands at the index |
| Sequences.Remove | Sequence.hpp:6-37 | an index outside the elements is refused with the storage's error; otherwise exactly that element goes |
| Sequences.Apply | Sequence.hpp:6-37 | every mutator succeeds exactly when the storage-free reference edit accepts the index, and gives the elements it describes |
| Sequences.ArrayEditAsWritten | ArraySequence.hpp:122-175 | each array mutator as written: Append and InsertAt can throw IndexOutOfRange from a one-slot buffer, and Remove accepts any index below the capacity |
| Sequences.ListEditAsWritten | ListSequence.hpp:116-141 | each list mutator as written at the level of values: InsertAt leaves the cached counter stale; Append, Prepend and Remove change the elements as intended |
| Sequences.ApplyAsWritten | ListSequence.hpp:184-201 | as written, the immutable list mutators and the immutable array Remove recurse without end on any stack; the other mutators run the as-written code, which agrees with Apply except where it throws from a one-slot buffer, removes a spare slot, or leaves a list's counter stale |
| Sequences.MutableArrayDepartures | ArraySequence.hpp:122-175 | through the dispatch, appending to [x] built by Prepend throws while the intended result is [x, y]; Remove(5) on [x, y] drops y while the intended result is IndexOutOfRange |
| Sequences.ImmutableListAppendOverflows | ListSequence.hpp:184-186 | appending to an immutable list as written overflows the stack; the corrected edit appends |
| Handles.Alloc | ArraySequence.hpp:183-185 | a new object gets a handle not in use, and no other object changes |
| Handles.Clone | ArraySequence.hpp:183-185 | a clone is a new object equal to the receiver, and no other object changes |
| Handles.Instance | ArraySequence.hpp:178-180 | a mutable sequence returns itself; an immutable one returns a new copy |
| Handles.Edit | ArraySequence.hpp:234-257 | a mutator succeeds as the reference edit says; a mutable receiver is changed in place under the same handle, an immutable one is left alone and the result is a new object |
| Handles.Concat | ArraySequence.hpp:108-119 | Concat makes a new object and changes neither operand |
| Handles.CloneIsIndependent | ArraySequence.hpp:178-185 | editing a clone leaves the original as it was, while editing through a mutable Instance changes it |
| Handles.ImmutableReceiverUnchanged | ArraySequence.hpp:234-252 | two successive edits starting from an immutable sequence leave it and the intermediate result unchanged, each edit giving a new object |
| Stack.Push | Stack.hpp:61-64 | the item goes on top |
| Stack.Top | Stack.hpp:74-78 | an empty stack throws EmptyStack; otherwise the most recently pushed element |
| Stack.Pop | Stack.hpp:66-72 | an empty stack throws EmptyStack; otherwise the top element and the stack below it |
| Stack.PushPop | Stack.hpp:61-78 | Pop after Push gives the item back and leaves the previous contents |
| Stack.PushAll | Stack.hpp:61-64 | pushing items in turn puts them on top, in order |
| Stack.PopMany | Stack.hpp:66-72 | a run of n successful pops yields n items |
| Stack.PopManyReverses | Stack.hpp:66-72 | popping as many items as were pushed on top gives them back reversed and leaves what was below |
| Stack.PushAllPopManyReverses | Stack.hpp:61-72 | pushing a run and popping as many gives the run reversed and the original stack |
| Stack.ArrayStackScenario | test.hpp:142-152 | the array-stack test: "world" pops first, then "hello" is on top of one element |
| Stack.ListStackScenario | test.hpp:154-163 | the list-stack test: 2 pops first, then 3 is at index 0 |
| Queue.Enqueue | Queue.hpp:64-67 | the item joins at the back |
| Queue.Peek | Queue.hpp:77-80 | an empty queue throws its storage's empty error; otherwise the front |
| Queue.Dequeue | Queue.hpp:69-75 | an empty queue throws its storage's empty error; otherwise the front and the rest, moved forward |
| Queue.DequeueMany | Queue.hpp:69-75 | a run of n successful dequeues yields n items |
| Queue.DequeueManyInOrder | Queue.hpp:69-75 | dequeuing as many items as stand in front gives them in order and leaves the rest |
| Queue.EnqueueThenDrain | Queue.hpp:64-75 | draining after an Enqueue gives the old contents, then the new item |
| Queue.Interleave | Queue.hpp:113-127 | the merge is as long as both inputs together; its contents are stated by Queue.InterleaveKeepsElements and the positional lemmas below |
| Queue.InterleaveKeepsElements | Queue.hpp:113-127 | the merge holds exactly the elements of both inputs, as a multiset |
| Queue.InterleavePairAt | Queue.hpp:120-123 | while both last, positions 2i and 2i+1 hold the receiver's and the argument's i-th element |
| Queue.InterleaveRestOfFirst | Queue.hpp:124 | the longer receiver's surplus follows the pairs, in order |
| Queue.InterleaveRestOfSecond | Queue.hpp:125 | the longer argument's surplus follows the pairs, in order |
| Queue.InterleaveSnoc | Queue.hpp:120-123 | one more pair of equally long inputs extends the merge by that pair |
| Queue.InterleaveSplit | Queue.hpp:113-127 | the merge is the merge of the common prefixes followed by both surpluses |
| Queue.EnqueueRange | Queue.hpp:124-125 | enqueuing positions lo..hi-1 of another queue appends exactly that slice |
| Queue.InterleavePrefixStep | Queue.hpp:120-123 | one more position adds its pair to the merge of the prefixes |
| Queue.EnqueuePair | Queue.hpp:121-122 | one round of the first loop adds the receiver's i-th element, then the argument's |
| Queue.EnqueuePairs | Queue.hpp:120-123 | the first loop yields the merge of the first n positions |
| Queue.Clutch | Queue.hpp:113-127 | Clutch gives a queue of the receiver's storage holding the round-robin merge, receiver first, with the longer queue's surplus at the end |
| Queue.ConcatArrayQueue | Queue.hpp:219-225 | the list queue's elements followed by the array queue's |
| Queue.ClutchExample | Queue.hpp:113-127 | [1, 2, 3] merged with [10, 20] is [1, 10, 2, 20, 3] |
| Queue.QueueScenario | test.hpp:116-140 | the queue tests: three enqueues, the first at the front, and the second at index 0 after a dequeue |
| Deque.PushFront | Deque.hpp:59-62 | the item goes to the front |
| Deque.PushBack | Deque.hpp:64-67 | the item goes to the back |
| Deque.Front | Deque.hpp:85-88 | an empty deque throws its storage's empty error; otherwise the front |
| Deque.Back | Deque.hpp:90-93 | an empty deque throws its storage's empty error; otherwise the back |
| Deque.PopFront | Deque.hpp:69-75 | an empty deque throws; otherwise the front and the rest |
| Deque.PopBack | Deque.hpp:77-83 | an empty deque throws; otherwise the back and the rest; an array deque keeps its buffer |
| Deque.ListPopBackAsWritten | Deque.hpp:164-170 | as written, a list deque's PopBack returns the last element, but the list keeps every node and only the counter drops, so it falls out of step |
| Deque.ListPopBackLeavesNode | Deque.hpp:164-170 | in the list-deque test, Back reads 'a' after PopBack as written, but the length is still 3 and after pushing 'c' Back reports 'b' |
| Deque.ListPopBackThenPushBack | Deque.hpp:146-180 | with the node removed, the same steps leave length 2 and Back is 'c' after pushing it |
| Deque.PushPopRoundTrips | Deque.hpp:59-83 | popping at the end just pushed to gives the item and the previous contents back |
| Deque.ArrayDequeScenario | test.hpp:165-177 | the array-deque test: front 0, back 2, one element left after popping both |

## Left out

- Interface.hpp and main.cpp are not part of this model. The console menu and `User.hpp` are input/output.
- test.hpp is modelled only as the scenario lemmas named above. Its printing and assertion helpers are left out.
- `GetRef` is left out, in `DynamicArray` (DynamicArray.hpp:71-77), `LinkedList` (LinkedList.hpp:166-169), `MutableArraySequence` and `MutableListSequence`. Each returns the address of a local copy, so nothing about it can be stated in a value model.
- `DynamicArray::operator[]` (both overloads) is not a separate member. It makes the same bounds check as Get and returns a reference, so reading through it is `DynamicArray.Get` and writing through it is `DynamicArray.Set`. No sequence calls it.
- Memory management is not modelled. That covers destructors, leaks, and the sharing of nodes between a concatenation and its argument (`result->tail->next = list->root`). Concat is modelled by its values.
- `ArrayQueue::Concat` and both `GetSubQueue` are left out. They cast an unrelated `Sequence*` result to a queue, so they have no defined behaviour to model.
- The `operator+` wrappers are left out. They call Concat.
- Error messages, the `BaseError` hierarchy and the error codes that the modelled headers never throw are left out. The codes are IMMUTABLE, INVALID_ARGUMENT, EMPTY_VALUE and CONCAT_TYPE_MISMATCH; INVALID_ARGUMENT is thrown only by the console menu in Interface.hpp. Only the kind of error is modelled.
- The state of an object after an exception is not modelled. A clone that an immutable mutator had allocated before the exception is leaked.
- `dynamic_cast` is replaced by the variant and storage tags of `Sequences.Sequence`.
- 32-bit `int` overflow of sizes and indices is not modelled. Sizes are unbounded integers.
- Uninitialised memory is modelled as `blank`. Fresh slots from `new T[n]` hold a default-constructed `T`.
- The constructors of the stack, queue and deque adapters build an empty or given sequence. These are the sequence constructors above.
- The copy constructors of the sequences copy values, which is the identity in a value model. The buffer and list copy loops are modelled as `DynamicArray.Copy` and `LinkedList.Copy`.
- Neither `ArrayDeque::PopBack` nor `ListDeque::PopBack` compiles as written. Each decrements `size`, which is private to its base class (ArraySequence.hpp:10-11, ListSequence.hpp:10-11). Deque.PopBack models the evident intent for both. Deque.ListPopBackAsWritten reads `size--` as if the counter were accessible.
- Sequences.ApplyAsWritten: the list sequences it dispatches to hold their list as values, so the `tail` departures of LinkedList.hpp do not show in it. They are stated at the node level in the NodeChain lemmas.
- The stack depth of `Sequences.ApplyAsWritten` is a parameter. Recursion without end is `Undefined` whatever the depth.
- `MutableArraySequence::Prepend` calls Resize on the old buffer and then discards that buffer. The resize has no visible effect, so it is not modelled.
- Resize as written (`DynamicArray.ResizeAsWritten`) and the corrected Resize agree whenever the buffer grows. The sequences only ever grow their buffer, so they use the corrected one.
- Queue.Clutch requires the argument to be an array queue, as both Clutch signatures take an `ArrayQueue`.
- Stack.PopMany and Queue.DequeueMany are stated only for their length and validity. Their contents are stated in Stack.PopManyReverses and Queue.DequeueManyInOrder.

## Findings

| source | as written | input that shows it | evidently intended | confidence | as-written member | corrected member |
|---|---|---|---|---|---|---|
| DynamicArray.hpp:121-122 | Resize copies all `size` old slots into the new buffer | shrinking [10, 20, 30, _, _] to 2 writes slots 2..4 past a buffer of 2 | copy `min(size, newSize)` slots | high (not executed) | DynamicArray.ResizeAsWritten, DynamicArray.ResizeShrinkOverflows | DynamicArray.Resize |
| ArraySequence.hpp:125 and :161 | growth `size == 0 ? 10 : size + size / 2` | Prepend on an empty sequence gives length 1 and capacity 1; the growth then stays at 1 and `Set(1, …)` throws IndexOutOfRange | grow by at least one slot | high (not executed) | ArraySequence.AppendAsWritten, ArraySequence.InsertAtAsWritten, ArraySequence.AppendAfterPrependFails | ArraySequence.Append, ArraySequence.InsertAt, ArraySequence.NewCapacity |
| ArraySequence.hpp:170-175 | Remove checks the index only against the capacity, then decrements the length | Append then Remove(0) leaves length 0 and capacity 9; Remove(0) then succeeds with length -1 | refuse indices outside the elements | high (not executed) | ArraySequence.RemoveAsWritten, ArraySequence.RemovePastLengthGoesNegative | ArraySequence.Remove |
| LinkedList.hpp:184-188 | Prepend never sets `tail` | Prepend to an empty list, then GetLast or Append dereferences a null tail | point `tail` at the new node when the list was empty | high (not executed) | NodeChain.PrependAsWritten, NodeChain.PrependOnEmptyLosesTail | NodeChain.Prepend |
| LinkedList.hpp:197-208 | InsertAt never moves `tail` | InsertAt(b, 1) on [a]: GetLast gives a, and Append(c) gives [a, c] with size 3 | move `tail` to a node inserted at the end | high (not executed) | NodeChain.InsertAtAsWritten, NodeChain.InsertAtEndLeavesTailBehind | NodeChain.InsertAt |
| LinkedList.hpp:225-233 | Remove deletes the last node and leaves `tail` on it | Remove(1) on [a, b], then GetLast reads freed memory | move `tail` back to the predecessor, or to null | high (not executed) | NodeChain.RemoveAsWritten, NodeChain.RemoveLastFreesTail | NodeChain.Remove |
| LinkedList.hpp:241-245 | Concat writes through the copy's `tail` and takes the argument's `tail` | an empty receiver dereferences a null tail; [a] with an empty argument gets a null tail | start from the argument when the receiver is empty, keep the receiver's tail when the argument is empty | high (not executed) | NodeChain.ConcatAsWritten, NodeChain.ConcatLosesTail | NodeChain.Concat |
| ListSequence.hpp:130-133 | InsertAt does not increment the cached `size` that GetLast reads | InsertAt(3, 2) on [1, 2], then GetLast gives 2 | increment `size` as Append and Prepend do | high (not executed) | ListSequence.InsertAtAsWritten, ListSequence.StaleSizeMisreadsLast | ListSequence.InsertAt |
| ListSequence.hpp:184-201, ArraySequence.hpp:255-257 | the immutable overrides call the same override on an immutable clone | Append on any immutable list sequence recurses until the stack overflows | call the mutable implementation on the clone, as the immutable array's Append does | high (not executed) | Sequences.ApplyAsWritten, Sequences.ImmutableListAppendOverflows | Sequences.Apply, Handles.Edit |
| Deque.hpp:164-170 | ListDeque's PopBack only decrements the cached counter | push 'a', front 'z', back 'b', PopBack: the length is still 3, and after PushBack('c') Back gives 'b' | remove the last node | medium (not executed; does not compile as written, modelled with `size` accessible) | Deque.ListPopBackAsWritten, Deque.ListPopBackLeavesNode | Deque.PopBack, Deque.ListPopBackThenPushBack |

Concrete consequences of the list departures, through the adapters:

- A `ListStack` Push after a Pop from two or more elements appends through the freed `tail` (Stack.hpp:142-146, then LinkedList.hpp:225-233). See NodeChain.RemoveLastFreesTail.
- A `ListDeque` PushFront on an empty deque followed by PushBack dereferences a null `tail` (LinkedList.hpp:184-188). See NodeChain.PrependOnEmptyLosesTail.
- `MutableListSequence::Concat` with an empty receiver dereferences a null `tail` (LinkedList.hpp:241-245). See NodeChain.ConcatLosesTail.
