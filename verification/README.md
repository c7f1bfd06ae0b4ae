# ListHolder: a verified model of a defensively encapsulated list

This project models the `lambda` example of the repository: a `ListHolder<E>`
that hides a list behind four access modes, and the `Counter` objects it is
used with. The holder keeps two lists:

- `myOriginalItems` is a private copy of the constructor's argument. It is
  never handed out and never reassigned.
- `mySharedItems` is the working list. `reset()` replaces it with a fresh
  copy of the original.

The four access modes:

- `getValues()` returns the working list object itself. There is no reset
  and no copy.
- `getImmutableValues()` resets, then returns an unmodifiable wrapper around
  the new working list.
- `iterator()` resets, then returns the iterator of `getImmutableValues()`,
  which resets a second time.
- `apply(action)` resets, then calls `action` on each element in order.

Lists hold element handles, never element copies. A structural change
(`clear`, `add`, `remove`) to one list object reaches no other list object. A
state change to a `Counter` (`doSomething`, `doSomethingElse`) is seen through
every list that holds that counter.

## How the model is built

- `Lists` (lists.dfy) models the java.util objects involved.
  - `ArrayList` objects live in a heap `map<ListId, seq<E>>`, and `new
    ArrayList<>(xs)` allocates a fresh reference.
  - A reference handed to a caller is a `View`. It is `Live(id)` for the list
    object itself and `ReadOnly(id)` for `Collections.unmodifiableList`.
  - `Mutate` performs a structural change through a view. A read-only view
    rejects every change with `UnsupportedOperation`.
  - `Iter` is an iterator over a view: `ArrayList`'s own iterator over a
    `Live` view, the unmodifiable wrapper's over a `ReadOnly` one. `Remove`
    on the first deletes the element `next()` last returned; on the second it
    is always rejected.
  - `ForEach` is the reference meaning of `forEach`: the callback applied to
    each element, front to back.
- `ListHolder` (holder.dfy) holds the holder state and its operations. The
  original is kept by value, because nothing can reach or change it. The
  working list is a heap reference. `apply`'s `Consumer` is a function
  `(S, E) -> S` over an arbitrary element state `S`.
- `HolderProperties` (holder_properties.dfy) states what callers can do
  through the references they are handed. It also models arbitrary call
  traces (`Step`, `Run`) and proves the invariant over them.
- `Counters` (counters.dfy) is a store `map<CounterId, int>`. Java `int`
  wrap-around is written out in `Int32` (int32.dfy).
- `Client` and `ClientProperties` (client.dfy, client_properties.dfy) model
  the four client loops and `Main`'s setup as scenarios over the whole world.
- Errors are `Result` values (wrappers.dfy). A rejected call returns
  `Failure` and changes nothing.

### What each access mode actually hands out

- `getValues()` (src/lambda/Main.java:44-46) returns the live working list
  without resetting. Clearing it therefore empties what `toString` prints
  until the next resetting call. The example marks this itself as the "BAD
  possible outcome" (src/lambda/Main.java:100); see
  `HolderProperties.ClearThroughGetValues` and
  `ClientProperties.SimpleLoopEmptiesWorking`.
- The immutable view is not a snapshot. The code wraps the working list, so
  the view is live. A later `getValues().clear()`
  empties an earlier read-only view too
  (`HolderProperties.ImmutableValuesAreNotSnapshot`).
- `iterator()` resets twice: once itself and once through
  `getImmutableValues()`. The model allocates two fresh lists.

## Model

| member | source | states |
|---|---|---|
| Int32.Wrap | src/lambda/Main.java:18-24 | the stored `int` is in 32-bit range, congruent to the exact value modulo 2^32, and equal to it when no overflow happens |
| Int32.WrapAdd | src/lambda/Main.java:18-20 | a wrapped `+=` followed by another addition equals one wrap of the exact sum |
| Int32.WrapMul | src/lambda/Main.java:22-24 | a wrapped value multiplied again equals one wrap of the exact product |
| Lists.Alloc | src/lambda/Main.java:39 | `new ArrayList<>(xs)` returns a reference to a new object not in the heap, holding the same handles; every existing list is unchanged |
| Lists.Edit | src/lambda/Main.java:101 | `clear` empties the list; `add` appends; `remove(i)` drops exactly element `i` and fails with IndexOutOfBounds exactly when `i` is out of range |
| Lists.Mutate | src/lambda/Main.java:52 | an unmodifiable view rejects every structural change with UnsupportedOperation; a live list changes only that one list object and no other |
| Lists.HasNext | src/lambda/Main.java:120 | `hasNext()`: whether an element is left under the cursor; `Lists.Next` succeeds exactly when it holds, and `Lists.Traverse` stops exactly when the list is exhausted |
| Lists.Next | src/lambda/Main.java:121 | `next()` fails with NoSuchElement exactly when the list is exhausted; otherwise it yields the element under the cursor, advances by one, and remembers that index for `remove()` |
| Lists.Remove | src/lambda/Main.java:125 | `remove()` on a read-only view's iterator fails with UnsupportedOperation wherever it stands; on a list's own iterator it deletes exactly the element last returned from that list alone (IllegalState when there is none, ConcurrentModification when the list has shrunk below it) and steps back over it |
| Lists.RemoveAfterNext | src/lambda/Main.java:121-126 | on a list's own iterator, `next()` then `remove()` takes out exactly the element returned (as a multiset) and leaves the rest of the traversal unchanged; on a read-only view it is rejected |
| Lists.Traverse | src/lambda/Main.java:120-122 | a `hasNext`/`next` loop yields exactly the rest of the backing list, in order |
| Lists.ForEachLoop | src/lambda/Main.java:67-71 | the loop that calls `action` on each element front to back computes `ForEach` |
| ListHolder.ResetFrom | src/lambda/Main.java:75-77 | the new working list is a fresh object holding the original's elements; all existing lists are untouched |
| ListHolder.Construct | src/lambda/Main.java:37-41 | the original equals the argument list in order and length; the working list equals it and is a new object, distinct from the caller's list and from every existing list; no existing list changes |
| ListHolder.GetValues | src/lambda/Main.java:44-46 | no contract of its own; `HolderProperties.GetValuesAliasesWorking` states that it hands out the working list itself |
| ListHolder.Reset | src/lambda/Main.java:75-77 | the working list becomes a fresh copy equal to the original whatever the old one held; the original is unchanged; no existing list changes |
| ListHolder.GetImmutableValues | src/lambda/Main.java:49-53 | returns a read-only view whose contents equal the original, over a list no earlier caller holds; the original is unchanged |
| ListHolder.Iterator | src/lambda/Main.java:57-61 | returns the read-only view's iterator, before the first element, over a fresh list equal to the original; the original is unchanged |
| ListHolder.Apply | src/lambda/Main.java:64-72 | the callback runs once per element of the original, in order, whatever had happened to the working list; the working list afterwards equals the original and no existing list changes |
| ListHolder.IterateAll | src/lambda/Main.java:57-61 | iterating the holder yields exactly the original's elements, in order |
| HolderProperties.ConstructSeversCallerList | src/lambda/Main.java:37-40 | a structural change to the caller's argument list after construction reaches neither the original nor the working list |
| HolderProperties.GetValuesAliasesWorking | src/lambda/Main.java:44-46 | any structural change through the `getValues` result succeeds exactly when it would on the working list's current contents, and then changes the working list accordingly, which a second `getValues` also shows; no other list and not the original changes |
| HolderProperties.ClearThroughGetValues | src/lambda/Main.java:95-102 | clearing the `getValues` result empties the working list, so `toString` shows nothing, with the original untouched; the next `getImmutableValues` shows the original again |
| HolderProperties.ImmutableValuesRejectChange | src/lambda/Main.java:104-111 | every structural change through the `getImmutableValues` result fails with UnsupportedOperation |
| HolderProperties.ImmutableValuesIdempotent | src/lambda/Main.java:49-53 | two `getImmutableValues` calls in a row give equal contents, both equal to the original, through distinct list objects |
| HolderProperties.ImmutableValuesAreNotSnapshot | src/lambda/Main.java:44-53 | the read-only view wraps the working list: clearing that list through `getValues` empties the earlier view too |
| HolderProperties.IteratorRemoveRejected | src/lambda/Main.java:57-61 | the holder's iterator is the read-only view's: its `remove` fails with UnsupportedOperation in every state, while an `ArrayList` iterator over the same working list would succeed |
| HolderProperties.Step | src/lambda/Main.java:33-82 | any single call keeps the holder well formed and the original unchanged; every resetting call leaves the working list equal to the original |
| HolderProperties.RunKeepsOriginal | src/lambda/Main.java:35-39 | after any sequence of access-mode calls and caller edits, the original keeps its elements, length and order |
| HolderProperties.ResettingCallSeesOriginal | src/lambda/Main.java:49-77 | whatever earlier callers did to the lists they were handed, a resetting access mode observes exactly the original |
| Counters.New | src/lambda/Main.java:14-16 | `new Counter(v)` is a fresh handle with count `v`; no other counter changes |
| Counters.DoSomething | src/lambda/Main.java:18-20 | the counter's count becomes the Java `int` sum with `data` (exact when there is no overflow); no other counter changes |
| Counters.DoSomethingElse | src/lambda/Main.java:22-24 | the counter's count becomes the Java `int` double (exact when there is no overflow); no other counter changes |
| Counters.AddedClosedForm | src/lambda/Main.java:18-20 | `n` calls of `doSomething(data)` add `n * data` with one wrap-around |
| Counters.DoubledClosedForm | src/lambda/Main.java:22-24 | `n` calls of `doSomethingElse` multiply by `2^n` with one wrap-around |
| Counters.Bump | src/lambda/Main.java:132 | no contract of its own; the callback `c -> c.doSomething(data)`, whose effect over a list `Counters.BumpAll` states |
| Counters.Twice | src/lambda/Main.java:134 | no contract of its own; the callback `Counter::doSomethingElse`, whose effect over a list `Counters.TwiceAll` states |
| Counters.BumpAllFrame | src/lambda/Main.java:97-99 | running `doSomething` over a list keeps the set of counters and keeps every count a Java `int` |
| Counters.BumpAll | src/lambda/Main.java:97-99 | running `doSomething(data)` over a list calls it on each counter once per occurrence of its handle, and on no other counter |
| Counters.TwiceAllFrame | src/lambda/Main.java:134 | running `doSomethingElse` over a list keeps the set of counters and keeps every count a Java `int` |
| Counters.TwiceAll | src/lambda/Main.java:134 | running `doSomethingElse` over a list doubles each counter once per occurrence of its handle, and no other counter |
| Client.NewCounters | src/lambda/Main.java:146-149 | creating a counter per value gives distinct fresh handles whose counts are the values, in order |
| Client.Setup | src/lambda/Main.java:146-150 | right after construction from counters with the given values, `toString` shows exactly those values, and the holder's handles are distinct |
| Client.Shown | src/lambda/Main.java:79-81 | `toString` shows one count per element of the working list, in list order |
| Client.SimpleLoop | src/lambda/Main.java:95-102 | the `clear` empties the working list and reaches no other list object; the holder's fields are unchanged |
| Client.ImmutableLoop | src/lambda/Main.java:104-111 | always ends with UnsupportedOperation, and the holder shows the original afterwards |
| Client.ExplicitLoop | src/lambda/Main.java:119-127 | the explicit iterator loop keeps the set of counters; it can throw only on a read-only view's iterator, and only UnsupportedOperation; over a read-only view no list changes, and over a list's own iterator only that list does |
| Client.IteratorLoop | src/lambda/Main.java:113-128 | its only possible exception is UnsupportedOperation, and the holder ends showing the original |
| Client.LambdaLoop | src/lambda/Main.java:130-135 | no list object that existed before changes, and the holder ends showing the original |
| ClientProperties.SimpleLoopEmptiesWorking | src/lambda/Main.java:95-102 | after `simpleLoop` the holder's `toString` shows nothing (the "BAD possible outcome"), while the original is unchanged |
| ClientProperties.SimpleLoopCounts | src/lambda/Main.java:95-99 | `simpleLoop` adds `data` to each counter once per occurrence in the working list |
| ClientProperties.StateChangesOutliveClear | src/lambda/Main.java:95-108 | after `simpleLoop` cleared the working list, a fresh immutable view shows every original counter, each carrying the increments made through the cleared list |
| ClientProperties.ImmutableLoopEffect | src/lambda/Main.java:104-111 | `immutableLoop` ends with UnsupportedOperation, and the holder afterwards shows the original's counters |
| ClientProperties.ImmutableLoopCounts | src/lambda/Main.java:104-108 | `immutableLoop` adds `data` to each counter once per occurrence in the original, even after an earlier caller cleared the working list |
| ClientProperties.ExplicitLoopOutcome | src/lambda/Main.java:119-127 | over the holder's read-only iterator, the explicit loop ends normally exactly when no counter's count, right after its own `doSomething`, triggers the removal |
| ClientProperties.ExplicitLoopDone | src/lambda/Main.java:119-127 | when the explicit loop ends normally, every counter from the cursor on got `doSomething(data)` once, in order, whether or not removals took counters out of a live list |
| ClientProperties.IteratorLoopKeepsOriginal | src/lambda/Main.java:113-128 | `iteratorLoop` leaves the holder showing the original in order and in full; its only possible exception is UnsupportedOperation |
| ClientProperties.IteratorLoopOutcome | src/lambda/Main.java:113-128 | `iteratorLoop` ends normally exactly when no counter's count, right after its visit in the second pass, asks for removal |
| ClientProperties.IteratorLoopCounts | src/lambda/Main.java:113-128 | the loop keeps every counter, and when `iteratorLoop` ends normally each counter has got `data` once per occurrence in each of the two passes |
| ClientProperties.LambdaLoopCounts | src/lambda/Main.java:130-135 | `lambdaLoop` applies `doSomething(data)` and then `doSomethingElse` once per occurrence in the original; counters not held are unchanged |
| ClientProperties.LambdaLoopHeldOnce | src/lambda/Main.java:130-135 | a counter held once turns from `x` into `(x + data) * 2`, as a Java `int` |
| ClientProperties.LambdaLoopHidesList | src/lambda/Main.java:63-72 | `lambdaLoop` changes no list object that existed before it, and the holder afterwards shows the original |
| ClientProperties.ClearedThenImmutableShowsValues | src/lambda/Main.java:95-111 | built from some values and cleared through `getValues`: `toString` is empty, yet `getImmutableValues` shows the values again |
| ClientProperties.ApplyThenImmutableShowsSums | src/lambda/Main.java:64-72 | built from some values, then `apply(c -> c.doSomething(data))`: a fresh immutable view shows each value plus `data` |

## Left out

- src/reflection/ShowClass.java is not part of this model. It consists only of Java reflection calls and console output.
- src/enumeratedType/Planet.java is not part of this model. It is floating-point arithmetic, argument parsing and `printf`.
- `Main.main` and `printResults` (src/lambda/Main.java:143-174) are left out. They print and catch every `Throwable`. Only their setup is modelled (`Client.Setup`). The scenarios return the exception as an `Outcome`.
- The text formatting of `toString` (src/lambda/Main.java:26-28, 79-81) is left out. The model prints the sequence of counts (`Client.Shown`).
- The `startsWith("5")` test of `iteratorLoop` is a caller-given predicate `wantsRemove` on the count.
- `ConcurrentModificationException` is modelled only where `ArrayList`'s iterator throws it from `remove()` because the element to remove is gone. Its modification-count check is not modelled: an iterator or `forEach` over a list that another caller changes structurally mid-traversal would throw it. None of the example's client loops does that.
- Null references and `NullPointerException` are not modelled. Every handle names an allocated object. A caller edit through a reference that was never allocated is treated as a no-op in `HolderProperties.Step`.
- `Setup` allocates the caller's `ArrayList` with its final contents in one step. `Main` builds the same contents with repeated `add` calls.
- In `HolderProperties.Step`, `apply` runs a callback that ignores element state. Element effects of `apply` are stated separately (`ListHolder.Apply` and the `ClientProperties` lemmas).
- ClientProperties.IteratorLoopCounts: gives final counter values only for runs that end normally. When the rejected `remove()` ends the loop early, `ClientProperties.IteratorLoopOutcome` says that it stops, not each counter's final count.

