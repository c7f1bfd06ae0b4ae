/** What callers can and cannot do to a `ListHolder` through the references
    its access modes hand out, and the invariant that survives any mix of
    calls: the original list never changes. */
module HolderProperties {
  import opened Wrappers
  import opened Lists
  import opened ListHolder

  /** The list the caller passed to the constructor stays the caller's: a
      structural change to it reaches neither the original nor the working list. */
  lemma ConstructSeversCallerList<E>(h: Heap<E>, args: ListId, op: ListOp<E>)
    requires h.Valid() && args in h.lists
    ensures var s := Construct(h, args);
            var r := Mutate(s.heap, Live(args), op);
            r.Success? ==>
              var s' := State(r.value, s.holder);
              s'.Valid() && s'.holder.original == h.lists[args] && s'.Working() == h.lists[args]
  {
  }

  /** `getValues()` hands out the working list itself, without a reset: any
      structural change through it succeeds or fails exactly as it would on
      the working list's current contents, lands in the working list (so
      `toString` and the next `getValues()` see it), and reaches no other list
      object and not the original. */
  lemma GetValuesAliasesWorking<E>(s: State<E>, op: ListOp<E>)
    requires s.Valid()
    ensures GetValues(s).id in s.heap.lists
    ensures var r := Mutate(s.heap, GetValues(s), op);
            && (r.Success? <==> Edit(s.Working(), op).Success?)
            && (r.Success? ==>
                  var s' := State(r.value, s.holder);
                  && s'.Valid()
                  && s'.holder.original == s.holder.original
                  && GetValues(s') == GetValues(s)
                  && s'.Working() == Edit(s.Working(), op).value
                  && forall id :: id in s.heap.lists && id != s.holder.shared ==>
                       s'.heap.lists[id] == s.heap.lists[id])
  {
  }

  /** The "BAD possible outcome": clearing what `getValues()` returned empties
      the holder's working list (so `toString` shows nothing) while the
      original is untouched, and the next resetting call restores the
      original's contents. */
  lemma ClearThroughGetValues<E>(s: State<E>)
    requires s.Valid()
    ensures var r := Mutate(s.heap, GetValues(s), Clear);
            && r.Success?
            && var s' := State(r.value, s.holder);
            && s'.Valid()
            && s'.Working() == []
            && s'.holder.original == s.holder.original
            && GetImmutableValues(s').0.Working() == s.holder.original
  {
  }

  /** Every structural change through the view `getImmutableValues()` returns
      is rejected with UnsupportedOperation. */
  lemma ImmutableValuesRejectChange<E>(s: State<E>, op: ListOp<E>)
    requires s.heap.Valid()
    ensures var (s', v) := GetImmutableValues(s);
            v.id in s'.heap.lists && Mutate(s'.heap, v, op) == Failure(UnsupportedOperation)
  {
  }

  /** Two `getImmutableValues()` calls in a row give equal contents, each
      equal to the original, through two distinct list objects. */
  lemma ImmutableValuesIdempotent<E>(s: State<E>)
    requires s.heap.Valid()
    ensures var (s1, v1) := GetImmutableValues(s);
            var (s2, v2) := GetImmutableValues(s1);
            && s2.heap.lists[v1.id] == s2.heap.lists[v2.id] == s.holder.original
            && v1.id != v2.id
  {
  }

  /** The unmodifiable view wraps the working list; it is not a snapshot. If a
      later `getValues()` caller clears the working list before any other
      resetting call, the earlier read-only view shows an empty list too. */
  lemma ImmutableValuesAreNotSnapshot<E>(s: State<E>)
    requires s.heap.Valid()
    ensures var (s1, v) := GetImmutableValues(s);
            var r := Mutate(s1.heap, GetValues(s1), Clear);
            r.Success? && v.id in r.value.lists && r.value.lists[v.id] == []
  {
  }

  /** The holder's iterator is the read-only view's. Wherever it stands,
      whatever `next()` last returned, its `remove()` is rejected with
      UnsupportedOperation and no list object changes. An `ArrayList`
      iterator over the same working list would have removed the element. */
  lemma IteratorRemoveRejected<E>(s: State<E>, cursor: nat, lastRet: int)
    requires s.heap.Valid()
    ensures var (s', it) := Iterator(s);
            && it.view.ReadOnly?
            && it.view.id in s'.heap.lists
            && Remove(s'.heap, Iter(it.view, cursor, lastRet)) == Failure(UnsupportedOperation)
            && (0 <= lastRet < |s.holder.original| ==>
                  Remove(s'.heap, Iter(Live(it.view.id), cursor, lastRet)).Success?)
  {
  }

  /** A call a client can make: one of the holder's access modes, or a
      structural change through a list reference it holds. */
  datatype Call<E> =
    | GetValuesCall
    | GetImmutableValuesCall
    | IteratorCall
    | ApplyCall
    | CallerEdit(view: View, op: ListOp<E>)
  {
    /** The calls that begin with `reset()`. */
    predicate Resets() {
      GetImmutableValuesCall? || IteratorCall? || ApplyCall?
    }
  }

  /** The holder state after one call. A rejected edit throws and changes
      nothing; a reference to a list that was never allocated cannot be held,
      so such an edit is a no-op. Element state is not part of the holder and
      `apply` runs a callback that ignores it here. */
  function Step<E>(s: State<E>, c: Call<E>): (s': State<E>)
    requires s.Valid()
    ensures s'.Valid()
    ensures s'.holder.original == s.holder.original
    ensures c.Resets() ==> s'.Working() == s.holder.original
  {
    match c
    case GetValuesCall => s
    case GetImmutableValuesCall => GetImmutableValues(s).0
    case IteratorCall => Iterator(s).0
    case ApplyCall => Apply(s, 0, (n: int, e: E) => n).0
    case CallerEdit(v, op) =>
      if v.id in s.heap.lists then
        match Mutate(s.heap, v, op)
        case Success(h) => State(h, s.holder)
        case Failure(_) => s
      else s
  }

  /** The holder state after a sequence of calls. */
  function Run<E>(s: State<E>, calls: seq<Call<E>>): State<E>
    requires s.Valid()
    decreases |calls|
  {
    if calls == [] then s else Run(Step(s, calls[0]), calls[1..])
  }

  /** Whatever a client does, the holder stays well formed and its original
      list keeps its length, order and elements. */
  lemma {:induction false} RunKeepsOriginal<E>(s: State<E>, calls: seq<Call<E>>)
    requires s.Valid()
    ensures Run(s, calls).Valid()
    ensures Run(s, calls).holder.original == s.holder.original
    decreases |calls|
  {
    if calls != [] {
      RunKeepsOriginal(Step(s, calls[0]), calls[1..]);
    }
  }

  /** One call after a sequence of calls. */
  lemma {:induction false} RunSnoc<E>(s: State<E>, calls: seq<Call<E>>, c: Call<E>)
    requires s.Valid()
    ensures Run(s, calls).Valid()
    ensures Run(s, calls + [c]) == Step(Run(s, calls), c)
    decreases |calls|
  {
    RunKeepsOriginal(s, calls);
    if calls == [] {
      assert calls + [c] == [c];
    } else {
      assert (calls + [c])[1..] == calls[1..] + [c];
      RunSnoc(Step(s, calls[0]), calls[1..], c);
    }
  }

  /** Structural independence: whatever earlier callers did to lists they were
      handed, every resetting access mode observes exactly the original. */
  lemma ResettingCallSeesOriginal<E>(s: State<E>, calls: seq<Call<E>>, c: Call<E>)
    requires s.Valid()
    requires c.Resets()
    ensures Run(s, calls + [c]).Valid()
    ensures Run(s, calls + [c]).Working() == s.holder.original
  {
    RunSnoc(s, calls, c);
    RunKeepsOriginal(s, calls);
  }
}
