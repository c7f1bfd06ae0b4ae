/** The example's `Client`: four loops over a `ListHolder<Counter>`, one per
    access mode, and the setup `Main` performs before running them. */
module Client {
  import opened Wrappers
  import opened Int32
  import opened Lists
  import opened ListHolder
  import opened Counters

  /** Every object of the example: the counters, the list objects, one holder. */
  datatype World = World(counters: Store, state: State<CounterId>) {
    ghost predicate Valid() {
      && counters.Valid()
      && state.Valid()
      && (forall i :: 0 <= i < |state.holder.original| ==> state.holder.original[i] in counters.count)
      && (forall id, i :: id in state.heap.lists && 0 <= i < |state.heap.lists[id]| ==>
            state.heap.lists[id][i] in counters.count)
    }
  }

  /** The counts of the counters a list holds, in list order. */
  function Values(st: Store, xs: seq<CounterId>): (r: seq<int>)
    requires forall i :: 0 <= i < |xs| ==> xs[i] in st.count
    ensures |r| == |xs|
    ensures forall i :: 0 <= i < |xs| ==> r[i] == st.count[xs[i]]
  {
    seq(|xs|, i requires 0 <= i < |xs| => st.count[xs[i]])
  }

  /** What `ListHolder.toString` prints: the counts along the working list. */
  function Shown(w: World): (r: seq<int>)
    requires w.Valid()
    ensures |r| == |w.state.Working()|
    ensures forall i :: 0 <= i < |r| ==> r[i] == w.counters.count[w.state.Working()[i]]
  {
    Values(w.counters, w.state.Working())
  }

  ghost predicate Distinct(xs: seq<CounterId>) {
    forall i, j :: 0 <= i < j < |xs| ==> xs[i] != xs[j]
  }

  /** `new Counter(v)` for each value, in order. */
  function NewCounters(st: Store, values: seq<int>): (r: (Store, seq<CounterId>))
    requires st.Valid()
    requires forall i :: 0 <= i < |values| ==> InRange(values[i])
    ensures r.0.Valid()
    ensures |r.1| == |values|
    ensures forall i :: 0 <= i < |values| ==> r.1[i] !in st.count && r.1[i] in r.0.count
    ensures forall i :: 0 <= i < |values| ==> r.0.count[r.1[i]] == values[i]
    ensures Distinct(r.1)
    ensures forall c :: c in st.count ==> c in r.0.count && r.0.count[c] == st.count[c]
    decreases |values|
  {
    if values == [] then (st, [])
    else
      var (st1, c) := New(st, values[0]);
      var (st2, cs) := NewCounters(st1, values[1..]);
      (st2, [c] + cs)
  }

  /** `Main`'s setup: a counter per value, an `ArrayList` holding them in
      order, and a holder constructed from that list. */
  function Setup(values: seq<int>): (w: World)
    requires forall i :: 0 <= i < |values| ==> InRange(values[i])
    ensures w.Valid()
    ensures Distinct(w.state.holder.original)
    ensures Shown(w) == values
  {
    var (st, cs) := NewCounters(Store(map[], 0), values);
    var (h, args) := Alloc(Heap(map[], 0), cs);
    World(st, Construct(h, args))
  }

  /** `simpleLoop`: `doSomething(data)` on each counter of `getValues()`, then
      `clear()` on that same list object. The clear reaches the working list
      and no other list object. */
  function SimpleLoop(w: World, data: int): (r: World)
    requires w.Valid() && InRange(data)
    ensures r.state.holder == w.state.holder
    ensures r.state.heap.lists.Keys == w.state.heap.lists.Keys
    ensures r.state.Working() == []
    ensures forall id :: id in w.state.heap.lists && id != w.state.holder.shared ==>
              r.state.heap.lists[id] == w.state.heap.lists[id]
  {
    var v := GetValues(w.state);
    var counters := ForEach(Bump(data), w.counters, w.state.heap.lists[v.id]);
    var cleared := Mutate(w.state.heap, v, Clear);
    World(counters, State(cleared.value, w.state.holder))
  }

  /** `immutableLoop`: `doSomething(data)` on each counter of
      `getImmutableValues()`, then `clear()` on that view, which throws and
      leaves the freshly reset working list as it was. */
  function ImmutableLoop(w: World, data: int): (r: (World, Outcome))
    requires w.Valid() && InRange(data)
    ensures r.1 == Threw(UnsupportedOperation)
    ensures r.0.state.Valid() && r.0.state.holder.original == w.state.holder.original
    ensures r.0.state.Working() == w.state.holder.original
  {
    var (s1, v) := GetImmutableValues(w.state);
    var counters := ForEach(Bump(data), w.counters, s1.heap.lists[v.id]);
    match Mutate(s1.heap, v, Clear)
    case Success(h) => (World(counters, State(h, s1.holder)), Done)
    case Failure(e) => (World(counters, s1), Threw(e))
  }

  /** The explicit `while (iter.hasNext())` loop of `iteratorLoop`: each counter
      gets `doSomething(data)`, and when `wantsRemove` holds of its new count
      the loop calls `iter.remove()`. `iteratorLoop` asks for removal when the
      count's decimal form starts with "5". On a read-only view's iterator the
      removal throws and ends the loop, and no list changes; on a list's own
      iterator it removes the counter from that list and the loop goes on. */
  function ExplicitLoop(st: Store, h: Heap<CounterId>, it: Iter, data: int, wantsRemove: int -> bool)
    : (r: (Store, Heap<CounterId>, Outcome))
    requires st.Valid() && InRange(data)
    requires it.view.id in h.lists && it.cursor <= |h.lists[it.view.id]|
    requires forall i :: 0 <= i < |h.lists[it.view.id]| ==> h.lists[it.view.id][i] in st.count
    ensures r.0.Valid() && r.0.count.Keys == st.count.Keys
    ensures r.2.Threw? ==> it.view.ReadOnly? && r.2.error == UnsupportedOperation
    ensures it.view.ReadOnly? ==> r.1 == h
    ensures r.1.lists.Keys == h.lists.Keys
    ensures forall id :: id in h.lists && id != it.view.id ==> r.1.lists[id] == h.lists[id]
    decreases |h.lists[it.view.id]| - it.cursor
  {
    if !HasNext(h, it) then (st, h, Done)
    else
      var next := Next(h, it).value;
      var st' := DoSomething(st, next.0, data);
      if !wantsRemove(st'.count[next.0]) then ExplicitLoop(st', h, next.1, data, wantsRemove)
      else
        match Remove(h, next.1)
        case Failure(e) => (st', h, Threw(e))
        case Success((h', it')) =>
          ShrunkListHeld(h.lists[it.view.id], h'.lists[it.view.id], it.cursor, st'.count.Keys);
          ExplicitLoop(st', h', it', data, wantsRemove)
  }

  /** A list with one element taken out holds only handles the old list held. */
  lemma ShrunkListHeld(l: seq<CounterId>, l': seq<CounterId>, j: nat, held: set<CounterId>)
    requires j < |l| && |l'| == |l| - 1
    requires l'[..j] == l[..j] && l'[j..] == l[j + 1..]
    requires forall i :: 0 <= i < |l| ==> l[i] in held
    ensures forall i :: 0 <= i < |l'| ==> l'[i] in held
  {
    forall i | 0 <= i < |l'|
      ensures l'[i] in held
    {
      if i < j {
        assert l'[i] == l'[..j][i];
      } else {
        assert l'[i] == l'[j..][i - j] == l[j + 1..][i - j] == l[i + 1];
      }
    }
  }

  /** `iteratorLoop`: a for-each over the holder (its `iterator()`, which
      yields the list it wraps in order, as `IterateAll` shows), then the
      explicit loop over a second `iterator()`. Neither pass can change a
      list, so the holder ends showing the original. */
  function IteratorLoop(w: World, data: int, wantsRemove: int -> bool): (r: (World, Outcome))
    requires w.Valid() && InRange(data)
    ensures r.1.Threw? ==> r.1.error == UnsupportedOperation
    ensures r.0.state.Valid() && r.0.state.holder.original == w.state.holder.original
    ensures r.0.state.Working() == w.state.holder.original
  {
    var (s1, it1) := Iterator(w.state);
    BumpAllFrame(data, w.counters, s1.heap.lists[it1.view.id]);
    var c1 := ForEach(Bump(data), w.counters, s1.heap.lists[it1.view.id]);
    var (s2, it2) := Iterator(s1);
    var (c2, h2, outcome) := ExplicitLoop(c1, s2.heap, it2, data, wantsRemove);
    (World(c2, State(h2, s2.holder)), outcome)
  }

  /** `lambdaLoop`: `apply(c -> c.doSomething(data))`, then
      `apply(Counter::doSomethingElse)`. No list object that existed before
      changes, and the holder ends showing the original. */
  function LambdaLoop(w: World, data: int): (r: World)
    requires w.Valid() && InRange(data)
    ensures r.state.Valid() && r.state.holder.original == w.state.holder.original
    ensures r.state.Working() == w.state.holder.original
    ensures forall id :: id in w.state.heap.lists ==>
              id in r.state.heap.lists && r.state.heap.lists[id] == w.state.heap.lists[id]
  {
    var (s1, c1) := Apply(w.state, w.counters, Bump(data));
    var (s2, c2) := Apply(s1, c1, Twice());
    World(c2, s2)
  }
}
