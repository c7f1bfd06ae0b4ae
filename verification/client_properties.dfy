/** What each of the client's loops does to the counters and to the holder,
    and how element-state changes travel between access modes while
    structural changes do not. */
module ClientProperties {
  import opened Wrappers
  import opened Int32
  import opened Lists
  import opened ListHolder
  import opened HolderProperties
  import opened Counters
  import opened Client

  /** A handle that occurs once in a list of distinct handles occurs once. */
  lemma {:induction false} DistinctOnce(xs: seq<CounterId>, i: int)
    requires Distinct(xs) && 0 <= i < |xs|
    ensures multiset(xs)[xs[i]] == 1
    decreases |xs|
  {
    assert xs == [xs[0]] + xs[1..];
    if i == 0 {
      assert xs[0] !in xs[1..];
    } else {
      DistinctOnce(xs[1..], i - 1);
      assert xs[1..][i - 1] == xs[i];
      assert xs[0] != xs[i];
    }
  }

  /** `simpleLoop` leaves the working list empty, so `toString` shows nothing,
      while the original is untouched. */
  lemma SimpleLoopEmptiesWorking(w: World, data: int)
    requires w.Valid() && InRange(data)
    ensures SimpleLoop(w, data).Valid()
    ensures SimpleLoop(w, data).state.holder.original == w.state.holder.original
    ensures Shown(SimpleLoop(w, data)) == []
  {
    BumpAllFrame(data, w.counters, w.state.Working());
  }

  /** `simpleLoop` adds `data` to each counter once per occurrence in the
      working list as it was when the loop began. */
  lemma {:induction false} SimpleLoopCounts(w: World, data: int, c: CounterId)
    requires w.Valid() && InRange(data) && c in w.counters.count
    ensures c in SimpleLoop(w, data).counters.count
    ensures SimpleLoop(w, data).counters.count[c]
         == Added(w.counters.count[c], multiset(w.state.Working())[c], data)
  {
    BumpAll(data, w.counters, w.state.Working(), c);
  }

  /** State changes survive where structural ones do not: after `simpleLoop`
      cleared the working list, a fresh `getImmutableValues()` shows every
      counter of the original again, each with the increments made through
      the cleared list. */
  lemma {:induction false} StateChangesOutliveClear(w: World, data: int, i: int)
    requires w.Valid() && InRange(data)
    requires 0 <= i < |w.state.holder.original|
    ensures var w' := SimpleLoop(w, data);
            var (s', v) := GetImmutableValues(w'.state);
            && s'.heap.lists[v.id] == w.state.holder.original
            && w.state.holder.original[i] in w'.counters.count
            && w'.counters.count[w.state.holder.original[i]]
               == Added(w.counters.count[w.state.holder.original[i]],
                        multiset(w.state.Working())[w.state.holder.original[i]], data)
  {
    SimpleLoopEmptiesWorking(w, data);
    SimpleLoopCounts(w, data, w.state.holder.original[i]);
  }

  /** `immutableLoop`: the view it iterates is the original again, whatever an
      earlier caller did to the working list; each counter gets `data` once
      per occurrence; the `clear()` is rejected with UnsupportedOperation and
      the holder still shows the original's counters. */
  lemma ImmutableLoopEffect(w: World, data: int)
    requires w.Valid() && InRange(data)
    ensures var (w', outcome) := ImmutableLoop(w, data);
            && outcome == Threw(UnsupportedOperation)
            && w'.Valid()
            && w'.state.holder.original == w.state.holder.original
            && w'.state.Working() == w.state.holder.original
            && Shown(w') == Values(w'.counters, w.state.holder.original)
  {
    var (s1, v) := GetImmutableValues(w.state);
    BumpAllFrame(data, w.counters, s1.heap.lists[v.id]);
  }

  lemma {:induction false} ImmutableLoopCounts(w: World, data: int, c: CounterId)
    requires w.Valid() && InRange(data) && c in w.counters.count
    ensures c in ImmutableLoop(w, data).0.counters.count
    ensures ImmutableLoop(w, data).0.counters.count[c]
         == Added(w.counters.count[c], multiset(w.state.holder.original)[c], data)
  {
    var (s1, v) := GetImmutableValues(w.state);
    BumpAll(data, w.counters, s1.heap.lists[v.id], c);
  }

  /** The count of the `k`-th counter of `l` right after the explicit loop,
      started at `from`, has called `doSomething(data)` on it. */
  ghost function CountAtVisit(st: Store, l: seq<CounterId>, from: nat, k: int, data: int): int
    requires st.Valid() && InRange(data)
    requires from <= k < |l|
    requires forall i :: 0 <= i < |l| ==> l[i] in st.count
  {
    BumpAllFrame(data, st, l[from..k + 1]);
    ForEach(Bump(data), st, l[from..k + 1]).count[l[k]]
  }

  /** Visiting the first counter of a pass. */
  lemma VisitFirst(st: Store, l: seq<CounterId>, from: nat, data: int)
    requires st.Valid() && InRange(data)
    requires from < |l|
    requires forall i :: 0 <= i < |l| ==> l[i] in st.count
    ensures CountAtVisit(st, l, from, from, data) == DoSomething(st, l[from], data).count[l[from]]
  {
    var st' := DoSomething(st, l[from], data);
    assert l[from..from + 1] == [l[from]];
    assert [l[from]][1..] == [];
    assert ForEach(Bump(data), st, [l[from]]) == ForEach(Bump(data), st', []);
  }

  /** Visiting a later counter of a pass is visiting it in the pass that starts
      one counter later from the store the first visit left. */
  lemma VisitLater(st: Store, l: seq<CounterId>, from: nat, k: int, data: int)
    requires st.Valid() && InRange(data)
    requires from < k < |l|
    requires forall i :: 0 <= i < |l| ==> l[i] in st.count
    ensures CountAtVisit(st, l, from, k, data)
         == CountAtVisit(DoSomething(st, l[from], data), l, from + 1, k, data)
  {

  }

  /** A whole pass is the first visit followed by the rest of the pass. */
  lemma PassShift(st: Store, l: seq<CounterId>, from: nat, data: int)
    requires InRange(data) && from < |l| && l[from] in st.count
    ensures ForEach(Bump(data), st, l[from..])
         == ForEach(Bump(data), DoSomething(st, l[from], data), l[from + 1..])
  {

  }

  /** One turn of the explicit loop over a read-only view's iterator: visit the
      counter under the cursor, then either stop on the rejected `remove()` or
      carry on from the next one. */
  lemma {:induction false} ExplicitLoopTurn(st: Store, h: Heap<CounterId>, it: Iter, data: int, wantsRemove: int -> bool)
    requires st.Valid() && InRange(data) && it.view.ReadOnly?
    requires it.view.id in h.lists && it.cursor < |h.lists[it.view.id]|
    requires forall i :: 0 <= i < |h.lists[it.view.id]| ==> h.lists[it.view.id][i] in st.count
    ensures var c := h.lists[it.view.id][it.cursor];
            var st' := DoSomething(st, c, data);
            ExplicitLoop(st, h, it, data, wantsRemove)
              == if wantsRemove(st'.count[c]) then (st', h, Threw(UnsupportedOperation))
                 else ExplicitLoop(st', h, Iter(it.view, it.cursor + 1, it.cursor), data, wantsRemove)
  {

  }

  /** Over the holder's read-only iterator, the explicit loop ends normally
      exactly when no counter's count, right after its own `doSomething(data)`,
      makes the loop ask for `remove()`. */
  lemma {:induction false} ExplicitLoopOutcome(st: Store, h: Heap<CounterId>, it: Iter, data: int,
                                               wantsRemove: int -> bool)
    requires st.Valid() && InRange(data) && it.view.ReadOnly?
    requires it.view.id in h.lists && it.cursor <= |h.lists[it.view.id]|
    requires forall i :: 0 <= i < |h.lists[it.view.id]| ==> h.lists[it.view.id][i] in st.count
    ensures ExplicitLoop(st, h, it, data, wantsRemove).2.Done? <==>
              forall k :: it.cursor <= k < |h.lists[it.view.id]| ==>
                !wantsRemove(CountAtVisit(st, h.lists[it.view.id], it.cursor, k, data))
    decreases |h.lists[it.view.id]| - it.cursor
  {
    var l := h.lists[it.view.id];
    if it.cursor < |l| {
      var c := l[it.cursor];
      var st' := DoSomething(st, c, data);
      var it' := Iter(it.view, it.cursor + 1, it.cursor);
      ExplicitLoopTurn(st, h, it, data, wantsRemove);
      VisitFirst(st, l, it.cursor, data);
      if wantsRemove(st'.count[c]) {
        assert wantsRemove(CountAtVisit(st, l, it.cursor, it.cursor, data));
      } else {
        ExplicitLoopOutcome(st', h, it', data, wantsRemove);
        var from' := it'.cursor;
        if ExplicitLoop(st', h, it', data, wantsRemove).2.Done? {
          forall k | it.cursor <= k < |l|
            ensures !wantsRemove(CountAtVisit(st, l, it.cursor, k, data))
          {
            if k > it.cursor {
              VisitLater(st, l, it.cursor, k, data);
            }
          }
        } else {
          var k :| from' <= k < |l| && wantsRemove(CountAtVisit(st', l, from', k, data));
          VisitLater(st, l, it.cursor, k, data);
        }
      }
    }
  }

  /** When the explicit loop ends normally, every counter from the cursor on
      got `doSomething(data)` once, in order. This holds on a list's own
      iterator too, where a removal takes a counter out of the list only
      after its visit and skips none of the later ones. */
  lemma {:induction false} ExplicitLoopDone(st: Store, h: Heap<CounterId>, it: Iter, data: int,
                                            wantsRemove: int -> bool)
    requires st.Valid() && InRange(data)
    requires it.view.id in h.lists && it.cursor <= |h.lists[it.view.id]|
    requires forall i :: 0 <= i < |h.lists[it.view.id]| ==> h.lists[it.view.id][i] in st.count
    ensures var r := ExplicitLoop(st, h, it, data, wantsRemove);
            r.2.Done? ==> r.0 == ForEach(Bump(data), st, h.lists[it.view.id][it.cursor..])
    decreases |h.lists[it.view.id]| - it.cursor
  {
    var l := h.lists[it.view.id];
    if it.cursor < |l| {
      var c := l[it.cursor];
      var st' := DoSomething(st, c, data);
      var it1 := Iter(it.view, it.cursor + 1, it.cursor);
      PassShift(st, l, it.cursor, data);
      if !wantsRemove(st'.count[c]) {
        assert ExplicitLoop(st, h, it, data, wantsRemove) == ExplicitLoop(st', h, it1, data, wantsRemove);
        ExplicitLoopDone(st', h, it1, data, wantsRemove);
      } else if it.view.Live? {
        var (h', it') := Remove(h, it1).value;
        var l' := h'.lists[it.view.id];
        ShrunkListHeld(l, l', it.cursor, st'.count.Keys);
        assert ExplicitLoop(st, h, it, data, wantsRemove) == ExplicitLoop(st', h', it', data, wantsRemove);
        ExplicitLoopDone(st', h', it', data, wantsRemove);
        assert l'[it'.cursor..] == l[it.cursor + 1..];
      }
    } else {
      assert l[it.cursor..] == [];
    }
  }

  /** `iteratorLoop` leaves the holder showing the original, in order and in
      full, and its only possible exception is UnsupportedOperation from
      `remove()`. */
  lemma IteratorLoopKeepsOriginal(w: World, data: int, wantsRemove: int -> bool)
    requires w.Valid() && InRange(data)
    ensures var (w', outcome) := IteratorLoop(w, data, wantsRemove);
            && w'.Valid()
            && w'.state.holder.original == w.state.holder.original
            && w'.state.Working() == w.state.holder.original
            && (outcome.Threw? ==> outcome.error == UnsupportedOperation)
  {
    var (s1, it1) := Iterator(w.state);
    BumpAllFrame(data, w.counters, w.state.holder.original);
  }

  /** The counters after the for-each pass of `iteratorLoop`, which visits the
      original's counters in order. */
  ghost function FirstPass(w: World, data: int): (st: Store)
    requires w.Valid() && InRange(data)
    ensures st.Valid() && st.count.Keys == w.counters.count.Keys
  {
    BumpAllFrame(data, w.counters, w.state.holder.original);
    ForEach(Bump(data), w.counters, w.state.holder.original)
  }

  /** `iteratorLoop` ends normally exactly when no counter's count, right
      after its visit in the second pass, makes the loop ask for `remove()`. */
  lemma {:induction false} IteratorLoopOutcome(w: World, data: int, wantsRemove: int -> bool)
    requires w.Valid() && InRange(data)
    ensures var orig := w.state.holder.original;
            IteratorLoop(w, data, wantsRemove).1.Done? <==>
              forall k :: 0 <= k < |orig| ==> !wantsRemove(CountAtVisit(FirstPass(w, data), orig, 0, k, data))
  {
    var orig := w.state.holder.original;
    var c1 := FirstPass(w, data);
    var (s1, it1) := Iterator(w.state);
    var (s2, it2) := Iterator(s1);
    assert IteratorLoop(w, data, wantsRemove).1 == ExplicitLoop(c1, s2.heap, it2, data, wantsRemove).2;
    ExplicitLoopOutcome(c1, s2.heap, it2, data, wantsRemove);
  }

  /** When `iteratorLoop` ends normally, each counter has received `data`
      once per occurrence in each of the two passes. */
  lemma {:induction false} IteratorLoopCounts(w: World, data: int, wantsRemove: int -> bool, c: CounterId)
    requires w.Valid() && InRange(data) && c in w.counters.count
    ensures var (w', outcome) := IteratorLoop(w, data, wantsRemove);
            && c in w'.counters.count
            && (outcome.Done? ==>
                  var m := multiset(w.state.holder.original)[c];
                  w'.counters.count[c] == Added(Added(w.counters.count[c], m, data), m, data))
  {
    var orig := w.state.holder.original;
    var (s1, it1) := Iterator(w.state);
    BumpAllFrame(data, w.counters, orig);
    BumpAll(data, w.counters, orig, c);
    var c1 := ForEach(Bump(data), w.counters, orig);
    var (s2, it2) := Iterator(s1);
    ExplicitLoopDone(c1, s2.heap, it2, data, wantsRemove);
    assert s2.heap.lists[it2.view.id][0..] == orig;
    BumpAllFrame(data, c1, orig);
    BumpAll(data, c1, orig, c);
  }

  /** `lambdaLoop`: each counter of the original gets `doSomething(data)` once
      per occurrence, then `doSomethingElse()` once per occurrence; a counter
      the holder does not hold is unchanged. */
  lemma {:induction false} LambdaLoopCounts(w: World, data: int, c: CounterId)
    requires w.Valid() && InRange(data) && c in w.counters.count
    ensures c in LambdaLoop(w, data).counters.count
    ensures var m := multiset(w.state.holder.original)[c];
            LambdaLoop(w, data).counters.count[c] == Doubled(Added(w.counters.count[c], m, data), m)
    ensures multiset(w.state.holder.original)[c] == 0 ==>
              LambdaLoop(w, data).counters.count[c] == w.counters.count[c]
  {
    var orig := w.state.holder.original;
    BumpAllFrame(data, w.counters, orig);
    BumpAll(data, w.counters, orig, c);
    TwiceAll(ForEach(Bump(data), w.counters, orig), orig, c);
  }

  /** A counter the holder holds once turns from `x` into `(x + data) * 2`,
      computed as a Java `int`. */
  lemma {:induction false} LambdaLoopHeldOnce(w: World, data: int, c: CounterId)
    requires w.Valid() && InRange(data) && c in w.counters.count
    requires multiset(w.state.holder.original)[c] == 1
    ensures c in LambdaLoop(w, data).counters.count
    ensures LambdaLoop(w, data).counters.count[c] == Wrap((w.counters.count[c] + data) * 2)
  {
    var x := w.counters.count[c];
    LambdaLoopCounts(w, data, c);
    assert LambdaLoop(w, data).counters.count[c] == Doubled(Added(x, 1, data), 1);
    AddedClosedForm(x, 1, data);
    DoubledClosedForm(Wrap(x + data), 1);
    WrapMul(x + data, 2);
  }

  /** `lambdaLoop` never exposes a list: no list object that existed before it
      changes, and afterwards the holder shows the original's counters. */
  lemma LambdaLoopHidesList(w: World, data: int)
    requires w.Valid() && InRange(data)
    ensures var w' := LambdaLoop(w, data);
            && w'.Valid()
            && w'.state.Working() == w.state.holder.original
            && forall id :: id in w.state.heap.lists ==>
                 id in w'.state.heap.lists && w'.state.heap.lists[id] == w.state.heap.lists[id]
  {
    var orig := w.state.holder.original;
    BumpAllFrame(data, w.counters, orig);
    TwiceAllFrame(ForEach(Bump(data), w.counters, orig), orig);
  }

  /** Built from `values`, cleared through `getValues()`: `toString` shows
      nothing, yet `getImmutableValues()` shows `values` again. */
  lemma ClearedThenImmutableShowsValues(values: seq<int>)
    requires forall i :: 0 <= i < |values| ==> InRange(values[i])
    ensures var w := Setup(values);
            var r := Mutate(w.state.heap, GetValues(w.state), Clear);
            && r.Success?
            && var w' := World(w.counters, State(r.value, w.state.holder));
            && w'.Valid()
            && Shown(w') == []
            && var (s', v) := GetImmutableValues(w'.state);
               Values(w.counters, s'.heap.lists[v.id]) == values
  {
  }

  /** Built from `values`, then `apply(c -> c.doSomething(data))`: a fresh
      `getImmutableValues()` shows each value plus `data`. */
  lemma {:induction false} ApplyThenImmutableShowsSums(values: seq<int>, data: int, i: int)
    requires forall i :: 0 <= i < |values| ==> InRange(values[i])
    requires InRange(data) && 0 <= i < |values|
    ensures var w := Setup(values);
            var (s1, c1) := Apply(w.state, w.counters, Bump(data));
            var (s2, v) := GetImmutableValues(s1);
            && |s2.heap.lists[v.id]| == |values|
            && s2.heap.lists[v.id][i] in c1.count
            && c1.count[s2.heap.lists[v.id][i]] == Wrap(values[i] + data)
  {
    var w := Setup(values);
    var orig := w.state.holder.original;
    var c := orig[i];
    BumpAll(data, w.counters, orig, c);
    DistinctOnce(orig, i);
    AddedClosedForm(values[i], 1, data);
  }
}
