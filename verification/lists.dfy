/** The java.util objects the list holder works with: `ArrayList`s living in a
    heap and addressed by reference, the `Collections.unmodifiableList` view
    over one of them, and that view's iterator. Elements are handles: copying
    a list copies the handles, never the objects they refer to. */
module Lists {
  import opened Wrappers

  /** A reference to an `ArrayList` object. */
  type ListId = nat

  /** Every `ArrayList` allocated so far; `next` is the next fresh reference. */
  datatype Heap<E> = Heap(lists: map<ListId, seq<E>>, next: ListId) {
    ghost predicate Valid() {
      forall id :: id in lists ==> id < next
    }
  }

  /** `new ArrayList<>(content)`: a new list object holding the same handles,
      and no other list changes. */
  function Alloc<E>(h: Heap<E>, content: seq<E>): (r: (Heap<E>, ListId))
    requires h.Valid()
    ensures r.0.Valid()
    ensures r.1 !in h.lists
    ensures r.0.lists.Keys == h.lists.Keys + {r.1}
    ensures r.0.lists[r.1] == content
    ensures forall id :: id in h.lists ==> r.0.lists[id] == h.lists[id]
  {
    (Heap(h.lists[h.next := content], h.next + 1), h.next)
  }

  /** A `List<E>` reference handed to a caller: the list object itself, or an
      unmodifiable wrapper around it. Both read the same backing list. */
  datatype View = Live(id: ListId) | ReadOnly(id: ListId)

  /** The structural changes a caller can ask of a list. */
  datatype ListOp<E> = Clear | Add(e: E) | RemoveAt(index: int)

  /** What `ArrayList` does to its contents for a structural change. */
  function Edit<E>(l: seq<E>, op: ListOp<E>): (r: Result<seq<E>>)
    ensures r.Failure? <==> op.RemoveAt? && !(0 <= op.index < |l|)
    ensures r.Failure? ==> r.error == IndexOutOfBounds
    ensures r.Success? && op.Clear? ==> r.value == []
    ensures r.Success? && op.Add? ==> |r.value| == |l| + 1 && r.value[..|l|] == l && r.value[|l|] == op.e
    ensures r.Success? && op.RemoveAt? ==>
      |r.value| == |l| - 1 && r.value[..op.index] == l[..op.index] && r.value[op.index..] == l[op.index + 1..]
  {
    match op
    case Clear => Success([])
    case Add(e) => Success(l + [e])
    case RemoveAt(i) =>
      if 0 <= i < |l| then Success(l[..i] + l[i + 1..]) else Failure(IndexOutOfBounds)
  }

  /** A structural change requested through a view. The unmodifiable wrapper
      rejects every one; a live list applies it to that one list object only. */
  function Mutate<E>(h: Heap<E>, v: View, op: ListOp<E>): (r: Result<Heap<E>>)
    requires v.id in h.lists
    ensures v.ReadOnly? ==> r == Failure(UnsupportedOperation)
    ensures v.Live? ==> (r.Success? <==> Edit(h.lists[v.id], op).Success?)
    ensures r.Success? ==>
      && r.value.next == h.next
      && r.value.lists.Keys == h.lists.Keys
      && r.value.lists[v.id] == Edit(h.lists[v.id], op).value
      && forall id :: id in h.lists && id != v.id ==> r.value.lists[id] == h.lists[id]
  {
    match v
    case ReadOnly(_) => Failure(UnsupportedOperation)
    case Live(id) =>
      var l :- Edit(h.lists[id], op);
      Success(Heap(h.lists[id := l], h.next))
  }

  /** An iterator over a list reference: `ArrayList.Itr` when the reference
      is the list itself, the unmodifiable wrapper's iterator when it is a
      read-only view. `cursor` is the index of the next element; `lastRet` is
      the index `next()` returned last, or -1 when there is none to remove. */
  datatype Iter = Iter(view: View, cursor: nat, lastRet: int)

  /** `List.iterator()`: a new iterator before the first element. */
  function IteratorOf(v: View): Iter
  {
    Iter(v, 0, -1)
  }

  /** `hasNext()`. `ArrayList`'s iterator tests `cursor != size`; this agrees
      with `cursor < size` wherever the cursor is at most the size, which every
      caller here requires. */
  predicate HasNext<E>(h: Heap<E>, it: Iter)
    requires it.view.id in h.lists
  {
    it.cursor < |h.lists[it.view.id]|
  }

  /** `Iterator.next()`: the element under the cursor and the advanced
      iterator, which remembers the element's index for `remove()`. */
  function Next<E>(h: Heap<E>, it: Iter): (r: Result<(E, Iter)>)
    requires it.view.id in h.lists
    ensures r.Success? <==> it.cursor < |h.lists[it.view.id]|
    ensures r.Failure? ==> r.error == NoSuchElement
    ensures r.Success? ==>
      && r.value.0 == h.lists[it.view.id][it.cursor]
      && r.value.1.view == it.view
      && r.value.1.cursor == it.cursor + 1
      && r.value.1.lastRet == it.cursor
  {
    if HasNext(h, it) then Success((h.lists[it.view.id][it.cursor], Iter(it.view, it.cursor + 1, it.cursor)))
    else Failure(NoSuchElement)
  }

  /** `Iterator.remove()`. The unmodifiable wrapper's iterator rejects it
      wherever it stands, so no list object changes through it. `ArrayList.Itr`
      removes the element `next()` returned last from that one list and steps
      back over it; with no such element it throws IllegalState, and when the
      list has shrunk below that index behind its back, ConcurrentModification. */
  function Remove<E>(h: Heap<E>, it: Iter): (r: Result<(Heap<E>, Iter)>)
    requires it.view.id in h.lists
    ensures it.view.ReadOnly? ==> r == Failure(UnsupportedOperation)
    ensures it.view.Live? ==> (r.Success? <==> 0 <= it.lastRet < |h.lists[it.view.id]|)
    ensures it.view.Live? && it.lastRet < 0 ==> r == Failure(IllegalState)
    ensures it.view.Live? && it.lastRet >= |h.lists[it.view.id]| ==> r == Failure(ConcurrentModification)
    ensures r.Success? ==> r.value.0.next == h.next && r.value.0.lists.Keys == h.lists.Keys
    ensures r.Success? ==>
      var l := h.lists[it.view.id];
      var l' := r.value.0.lists[it.view.id];
      && |l'| == |l| - 1
      && l'[..it.lastRet] == l[..it.lastRet]
      && l'[it.lastRet..] == l[it.lastRet + 1..]
      && r.value.1.view == it.view
      && r.value.1.cursor == it.lastRet
      && r.value.1.lastRet < 0
      && (forall id :: id in h.lists && id != it.view.id ==> r.value.0.lists[id] == h.lists[id])
  {
    match it.view
    case ReadOnly(_) => Failure(UnsupportedOperation)
    case Live(id) =>
      if it.lastRet < 0 then Failure(IllegalState)
      else if it.lastRet >= |h.lists[id]| then Failure(ConcurrentModification)
      else
        Success((Mutate(h, it.view, RemoveAt(it.lastRet)).value, Iter(it.view, it.lastRet, -1)))
  }

  /** On a list itself, `next()` then `remove()` deletes exactly the element
      just returned and leaves the rest of the traversal as it was; on a
      read-only view the same two calls change nothing. */
  lemma RemoveAfterNext<E>(h: Heap<E>, it: Iter)
    requires it.view.id in h.lists && it.cursor < |h.lists[it.view.id]|
    ensures var (e, it1) := Next(h, it).value;
            var r := Remove(h, it1);
            var l := h.lists[it.view.id];
            && (it.view.ReadOnly? ==> r == Failure(UnsupportedOperation))
            && (it.view.Live? ==>
                  && r.Success?
                  && multiset(r.value.0.lists[it.view.id]) + multiset{e} == multiset(l)
                  && r.value.0.lists[it.view.id][r.value.1.cursor..] == l[it.cursor + 1..])
  {
    var l := h.lists[it.view.id];
    var c := it.cursor;
    if it.view.Live? {
      var (e, it1) := Next(h, it).value;
      var l' := Remove(h, it1).value.0.lists[it.view.id];
      assert l == l[..c] + [e] + l[c + 1..];
      assert l' == l'[..c] + l'[c..];
    }
  }

  /** Runs an iterator to exhaustion with `hasNext`/`next`, collecting what it
      yields: exactly the rest of the backing list, in order. */
  method Traverse<E>(h: Heap<E>, it: Iter) returns (xs: seq<E>)
    requires it.view.id in h.lists
    requires it.cursor <= |h.lists[it.view.id]|
    ensures xs == h.lists[it.view.id][it.cursor..]
  {
    xs := [];
    var cur := it;
    while HasNext(h, cur)
      invariant cur.view == it.view
      invariant it.cursor <= cur.cursor <= |h.lists[it.view.id]|
      invariant xs == h.lists[it.view.id][it.cursor..cur.cursor]
      decreases |h.lists[it.view.id]| - cur.cursor
    {
      var step := Next(h, cur);
      var (e, rest) := step.value;
      xs := xs + [e];
      cur := rest;
    }
  }

  /** Reference meaning of `forEach`: `action` applied once per element, front
      to back, threading the element state `st` through. */
  function ForEach<E, S>(action: (S, E) -> S, st: S, xs: seq<E>): S
    decreases |xs|
  {
    if xs == [] then st else ForEach(action, action(st, xs[0]), xs[1..])
  }

  /** The loop `for (E c : items) action.accept(c);` computes `ForEach`. */
  method ForEachLoop<E, S>(action: (S, E) -> S, st: S, xs: seq<E>) returns (st': S)
    ensures st' == ForEach(action, st, xs)
  {
    st' := st;
    var i := 0;
    while i < |xs|
      invariant 0 <= i <= |xs|
      invariant ForEach(action, st, xs) == ForEach(action, st', xs[i..])
    {
      assert xs[i..][1..] == xs[i + 1..];
      st' := action(st', xs[i]);
      i := i + 1;
    }
    assert xs[|xs|..] == [];
  }
}
