/** `ListHolder<E>`: a private copy of the constructor's list (the original)
    and a working list rebuilt from it by `reset()`, exposed through four
    access modes with different mutation rules. */
module ListHolder {
  import opened Wrappers
  import opened Lists

  /** `myOriginalItems` is never handed out nor changed after construction, so
      it is kept by value; `mySharedItems` is a reference into the heap. */
  datatype Holder<E> = Holder(original: seq<E>, shared: ListId)

  /** A holder together with the heap its working list lives in. */
  datatype State<E> = State(heap: Heap<E>, holder: Holder<E>) {
    ghost predicate Valid() {
      heap.Valid() && holder.shared in heap.lists
    }

    /** The current contents of the working list, which is what `toString` prints. */
    function Working(): seq<E>
      requires holder.shared in heap.lists
    {
      heap.lists[holder.shared]
    }
  }

  /** `mySharedItems = new ArrayList<>(original)` on heap `h`. */
  function ResetFrom<E>(h: Heap<E>, original: seq<E>): (s: State<E>)
    requires h.Valid()
    ensures s.Valid()
    ensures s.holder.original == original
    ensures s.Working() == original
    ensures s.holder.shared !in h.lists
    ensures s.heap.lists.Keys == h.lists.Keys + {s.holder.shared}
    ensures forall id :: id in h.lists ==> s.heap.lists[id] == h.lists[id]
  {
    var (h', id) := Alloc(h, original);
    State(h', Holder(original, id))
  }

  /** `new ListHolder<>(args)`: copies the caller's list, then resets. */
  function Construct<E>(h: Heap<E>, args: ListId): (s: State<E>)
    requires h.Valid() && args in h.lists
    ensures s.Valid()
    ensures s.holder.original == h.lists[args]
    ensures s.Working() == h.lists[args]
    ensures s.holder.shared != args
    ensures s.holder.shared !in h.lists
    ensures s.heap.lists.Keys == h.lists.Keys + {s.holder.shared}
    ensures forall id :: id in h.lists ==> s.heap.lists[id] == h.lists[id]
  {
    ResetFrom(h, h.lists[args])
  }

  /** `reset()`: whatever happened to the old working list, the new one is a
      fresh object with the original's contents; the original stays as it is. */
  function Reset<E>(s: State<E>): (s': State<E>)
    requires s.heap.Valid()
    ensures s'.Valid()
    ensures s'.holder.original == s.holder.original
    ensures s'.Working() == s.holder.original
    ensures s'.holder.shared !in s.heap.lists
    ensures s'.heap.lists.Keys == s.heap.lists.Keys + {s'.holder.shared}
    ensures forall id :: id in s.heap.lists ==> s'.heap.lists[id] == s.heap.lists[id]
  {
    ResetFrom(s.heap, s.holder.original)
  }

  /** `getValues()`: the working list object itself. There is no reset and no
      copy, so the caller shares the holder's working list. */
  function GetValues<E>(s: State<E>): View
  {
    Live(s.holder.shared)
  }

  /** `getImmutableValues()`: reset, then an unmodifiable wrapper around the
      (new) working list. */
  function GetImmutableValues<E>(s: State<E>): (r: (State<E>, View))
    requires s.heap.Valid()
    ensures r.0.Valid()
    ensures r.0.holder.original == s.holder.original
    ensures r.1.ReadOnly? && r.1.id == r.0.holder.shared
    ensures r.0.heap.lists[r.1.id] == s.holder.original
    ensures r.1.id !in s.heap.lists
    ensures forall id :: id in s.heap.lists ==> id in r.0.heap.lists && r.0.heap.lists[id] == s.heap.lists[id]
  {
    var s' := Reset(s);
    (s', ReadOnly(GetValues(s').id))
  }

  /** `iterator()`: reset, then the iterator of `getImmutableValues()` (which
      resets a second time). It is the read-only view's iterator, so its
      `remove()` is rejected. */
  function Iterator<E>(s: State<E>): (r: (State<E>, Iter))
    requires s.heap.Valid()
    ensures r.0.Valid()
    ensures r.0.holder.original == s.holder.original
    ensures r.1.view.ReadOnly? && r.1.view.id == r.0.holder.shared
    ensures r.1.cursor == 0 && r.1.lastRet < 0
    ensures r.0.heap.lists[r.1.view.id] == s.holder.original
    ensures r.1.view.id !in s.heap.lists
    ensures forall id :: id in s.heap.lists ==> id in r.0.heap.lists && r.0.heap.lists[id] == s.heap.lists[id]
  {
    var (s', v) := GetImmutableValues(Reset(s));
    (s', IteratorOf(v))
  }

  /** `apply(action)`: reset, then `forEach(action)` over the working list. The
      callback sees the original's elements in order, whatever a caller did to
      the previous working list, and the list itself never leaves the holder. */
  function Apply<E, S>(s: State<E>, st: S, action: (S, E) -> S): (r: (State<E>, S))
    requires s.heap.Valid()
    ensures r.0.Valid()
    ensures r.0.holder.original == s.holder.original
    ensures r.0.Working() == s.holder.original
    ensures r.0.holder.shared !in s.heap.lists
    ensures forall id :: id in s.heap.lists ==> id in r.0.heap.lists && r.0.heap.lists[id] == s.heap.lists[id]
    ensures r.1 == ForEach(action, st, s.holder.original)
  {
    var s' := Reset(s);
    (s', ForEach(action, st, s'.Working()))
  }

  /** `for (E c : holder)`: the elements an iterator of the holder yields, which
      are the original's, in order. */
  method IterateAll<E>(s: State<E>) returns (s': State<E>, xs: seq<E>)
    requires s.heap.Valid()
    ensures s'.Valid()
    ensures s'.holder.original == s.holder.original
    ensures xs == s.holder.original
  {
    var (s1, it) := Iterator(s);
    s' := s1;
    xs := Traverse(s'.heap, it);
  }
}
