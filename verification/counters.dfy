/** `Counter`: a mutable object holding one Java `int`. Counters live in a
    store and lists hold their handles, so a state change made through any
    list is seen through every list that holds the same handle. */
module Counters {
  import opened Int32
  import opened Lists

  /** A reference to a `Counter` object. */
  type CounterId = nat

  /** Every counter allocated so far and its `myCount`; `next` is the next fresh handle. */
  datatype Store = Store(count: map<CounterId, int>, next: CounterId) {
    ghost predicate Valid() {
      forall c :: c in count ==> c < next && InRange(count[c])
    }
  }

  /** `new Counter(value)`: a fresh handle; no other counter changes. */
  function New(st: Store, value: int): (r: (Store, CounterId))
    requires st.Valid() && InRange(value)
    ensures r.0.Valid()
    ensures r.1 !in st.count
    ensures r.0.count == st.count[r.1 := value]
  {
    (Store(st.count[st.next := value], st.next + 1), st.next)
  }

  /** `doSomething(data)`: `myCount += data` on one counter, with `int` wrap-around. */
  function DoSomething(st: Store, c: CounterId, data: int): (r: Store)
    requires c in st.count && InRange(data)
    ensures st.Valid() ==> r.Valid()
    ensures r.next == st.next && r.count.Keys == st.count.Keys
    ensures InRange(r.count[c]) && (st.count[c] + data - r.count[c]) % Modulus == 0
    ensures InRange(st.count[c] + data) ==> r.count[c] == st.count[c] + data
    ensures forall c' :: c' in st.count && c' != c ==> r.count[c'] == st.count[c']
  {
    Store(st.count[c := Wrap(st.count[c] + data)], st.next)
  }

  /** `doSomethingElse()`: `myCount *= 2` on one counter, with `int` wrap-around. */
  function DoSomethingElse(st: Store, c: CounterId): (r: Store)
    requires c in st.count
    ensures st.Valid() ==> r.Valid()
    ensures r.next == st.next && r.count.Keys == st.count.Keys
    ensures InRange(r.count[c]) && (st.count[c] * 2 - r.count[c]) % Modulus == 0
    ensures InRange(st.count[c] * 2) ==> r.count[c] == st.count[c] * 2
    ensures forall c' :: c' in st.count && c' != c ==> r.count[c'] == st.count[c']
  {
    Store(st.count[c := Wrap(st.count[c] * 2)], st.next)
  }

  /** The callback `c -> c.doSomething(data)`. Every handle a list holds names
      an allocated counter; a handle outside the store is left alone. */
  function Bump(data: int): (Store, CounterId) -> Store
    requires InRange(data)
  {
    (st: Store, c: CounterId) => if c in st.count then DoSomething(st, c, data) else st
  }

  /** The callback `Counter::doSomethingElse`. */
  function Twice(): (Store, CounterId) -> Store
  {
    (st: Store, c: CounterId) => if c in st.count then DoSomethingElse(st, c) else st
  }

  /** A count after `n` calls of `doSomething(data)`. */
  function Added(x: int, n: nat, data: int): int
    decreases n
  {
    if n == 0 then x else Added(Wrap(x + data), n - 1, data)
  }

  /** A count after `n` calls of `doSomethingElse()`. */
  function Doubled(x: int, n: nat): int
    decreases n
  {
    if n == 0 then x else Doubled(Wrap(x * 2), n - 1)
  }

  function Pow2(n: nat): (r: nat)
    ensures r >= 1
  {
    if n == 0 then 1 else 2 * Pow2(n - 1)
  }

  /** `n` calls of `doSomething(data)` add `n * data`, with one wrap-around. */
  lemma {:induction false} AddedClosedForm(x: int, n: nat, data: int)
    requires InRange(x)
    ensures Added(x, n, data) == Wrap(x + n * data)
    decreases n
  {
    if n > 0 {
      AddedClosedForm(Wrap(x + data), n - 1, data);
      WrapAdd(x + data, (n - 1) * data);
      assert x + data + (n - 1) * data == x + n * data;
    }
  }

  /** `n` calls of `doSomethingElse()` multiply by `2^n`, with one wrap-around. */
  lemma {:induction false} DoubledClosedForm(x: int, n: nat)
    requires InRange(x)
    ensures Doubled(x, n) == Wrap(x * Pow2(n))
    decreases n
  {
    if n > 0 {
      var p := Pow2(n - 1);
      assert Pow2(n) == 2 * p;
      DoubledClosedForm(Wrap(x * 2), n - 1);
      assert Doubled(x, n) == Wrap(Wrap(x * 2) * p);
      WrapMul(x * 2, p);
      DoubleThenScale(x, p);
    }
  }

  lemma DoubleThenScale(x: int, p: int)
    ensures (x * 2) * p == x * (2 * p)
  {
  }

  /** Running `doSomething(data)` over a list changes no handle and no other
      part of the store, and keeps every count a Java `int`. */
  lemma {:induction false} BumpAllFrame(data: int, st: Store, xs: seq<CounterId>)
    requires InRange(data) && st.Valid()
    requires forall i :: 0 <= i < |xs| ==> xs[i] in st.count
    ensures ForEach(Bump(data), st, xs).next == st.next
    ensures ForEach(Bump(data), st, xs).count.Keys == st.count.Keys
    ensures ForEach(Bump(data), st, xs).Valid()
    decreases |xs|
  {
    if xs != [] {
      BumpAllFrame(data, DoSomething(st, xs[0], data), xs[1..]);
    }
  }

  /** Running `doSomething(data)` over a list calls it on a counter once per
      occurrence of its handle, and on no other counter. */
  lemma {:induction false} BumpAll(data: int, st: Store, xs: seq<CounterId>, c: CounterId)
    requires InRange(data) && st.Valid()
    requires forall i :: 0 <= i < |xs| ==> xs[i] in st.count
    requires c in st.count
    ensures c in ForEach(Bump(data), st, xs).count
    ensures ForEach(Bump(data), st, xs).count[c] == Added(st.count[c], multiset(xs)[c], data)
    decreases |xs|
  {
    BumpAllFrame(data, st, xs);
    if xs != [] {
      var st1 := DoSomething(st, xs[0], data);
      assert ForEach(Bump(data), st, xs) == ForEach(Bump(data), st1, xs[1..]);
      BumpAll(data, st1, xs[1..], c);
      assert xs == [xs[0]] + xs[1..];
      if c == xs[0] {
        assert multiset(xs)[c] == 1 + multiset(xs[1..])[c];
      } else {
        assert multiset(xs)[c] == multiset(xs[1..])[c];
      }
    }
  }

  /** Running `doSomethingElse()` over a list changes no handle and no other
      part of the store, and keeps every count a Java `int`. */
  lemma {:induction false} TwiceAllFrame(st: Store, xs: seq<CounterId>)
    requires st.Valid()
    requires forall i :: 0 <= i < |xs| ==> xs[i] in st.count
    ensures ForEach(Twice(), st, xs).next == st.next
    ensures ForEach(Twice(), st, xs).count.Keys == st.count.Keys
    ensures ForEach(Twice(), st, xs).Valid()
    decreases |xs|
  {
    if xs != [] {
      TwiceAllFrame(DoSomethingElse(st, xs[0]), xs[1..]);
    }
  }

  /** Running `doSomethingElse()` over a list doubles a counter once per
      occurrence of its handle, and no other counter. */
  lemma {:induction false} TwiceAll(st: Store, xs: seq<CounterId>, c: CounterId)
    requires st.Valid()
    requires forall i :: 0 <= i < |xs| ==> xs[i] in st.count
    requires c in st.count
    ensures c in ForEach(Twice(), st, xs).count
    ensures ForEach(Twice(), st, xs).count[c] == Doubled(st.count[c], multiset(xs)[c])
    decreases |xs|
  {
    TwiceAllFrame(st, xs);
    if xs != [] {
      var st1 := DoSomethingElse(st, xs[0]);
      assert ForEach(Twice(), st, xs) == ForEach(Twice(), st1, xs[1..]);
      TwiceAll(st1, xs[1..], c);
      assert xs == [xs[0]] + xs[1..];
      if c == xs[0] {
        assert multiset(xs)[c] == 1 + multiset(xs[1..])[c];
      } else {
        assert multiset(xs)[c] == multiset(xs[1..])[c];
      }
    }
  }
}
