/** A model of the generic object pool `Pool<T>`: a LIFO buffer of slots
    (`_pool`) together with the number of occupied slots at its front
    (`_count`). Objects are opaque ids. The user's `init` callback is a
    fresh-id generator whose k-th call (counting from 0) yields id k; the
    user's `free` callback is recorded as a log of released objects. */
module ObjectPool {
  import opened Wrappers

  /** An opaque object identity. */
  type Obj = nat

  /** The pool's state.
      - slots:         the backing array `_pool`; `None` is `null`
      - count:         `_count`, the number of available objects
      - preferredSize: the public, mutable target size
      - generation:    which backing array is current; bumped whenever the
                       array is replaced, so "same reference" is `==`
      - inits:         how many times `init` has been called
      - freed:         every object passed to `free`, in call order */
  datatype Pool = Pool(
    slots: seq<Option<Obj>>,
    count: nat,
    preferredSize: nat,
    generation: nat,
    inits: nat,
    freed: seq<Obj>)

  /** The result of `get`: the pool afterwards and the object handed out. */
  datatype Taken = Taken(pool: Pool, obj: Obj)

  /** The slot invariant: the first `count` slots exist and hold objects,
      which is what makes the `as T` casts of `get` and `fit` sound. */
  predicate Valid(p: Pool) {
    && p.count <= |p.slots|
    && forall i :: 0 <= i < p.count ==> p.slots[i].Some?
  }

  /** Every slot at or above `count` is empty: `get` and `fit` null out what
      they take, so nothing stale is left behind the top of the stack. */
  predicate Cleared(p: Pool) {
    forall i :: p.count <= i < |p.slots| ==> p.slots[i].None?
  }

  /** The objects held by a run of occupied slots, in slot order. */
  function Values(s: seq<Option<Obj>>): (r: seq<Obj>)
    requires forall i :: 0 <= i < |s| ==> s[i].Some?
    ensures |r| == |s|
    ensures forall i :: 0 <= i < |s| ==> s[i] == Some(r[i])
  {
    seq(|s|, i requires 0 <= i < |s| => s[i].value)
  }

  /** The abstract view of a pool: the stack of available objects, bottom
      first, so the next `get` returns the last element. */
  function Stack(p: Pool): (r: seq<Obj>)
    requires Valid(p)
    ensures |r| == p.count
  {
    Values(p.slots[..p.count])
  }

  /** The first `n` ids the generator hands out, in order. */
  function Ids(n: nat): (r: seq<Obj>)
    ensures |r| == n
    ensures forall i :: 0 <= i < n ==> r[i] == i
  {
    seq(n, i requires 0 <= i < n => i)
  }

  /** The initial fill loop of the constructor after `n` iterations: slot i
      holds the result of the i-th `init` call. */
  function Fill(n: nat): (s: seq<Option<Obj>>)
    ensures |s| == n
    ensures forall i :: 0 <= i < n ==> s[i] == Some(i)
  {
    if n == 0 then [] else Fill(n - 1) + [Some(n - 1)]
  }

  /** `new Pool(init, free, preferredSize)`: calls `init` exactly
      `preferredSize` times (100 unless given) and keeps every result, in
      call order. */
  function New(preferredSize: nat := 100): (p: Pool)
    ensures Valid(p) && Cleared(p)
    ensures p.count == p.preferredSize == preferredSize == |p.slots|
    ensures Stack(p) == Ids(preferredSize)
    ensures p.inits == preferredSize
    ensures p.freed == []
  {
    Pool(Fill(preferredSize), preferredSize, preferredSize, 0, preferredSize, [])
  }

  /** The `length` accessor: how many objects the pool can hand out before
      it has to call `init`. */
  function Length(p: Pool): (n: nat)
    requires Valid(p)
    ensures n == |Stack(p)|
  {
    p.count
  }

  /** The `inner` accessor: a read-only view of the backing array. Only the
      first `length` entries are meaningful, and none of them is `null`. */
  function Inner(p: Pool): (view: seq<Option<Obj>>)
    requires Valid(p)
    ensures |view| >= Length(p)
    ensures forall i :: 0 <= i < Length(p) ==> view[i] == Some(Stack(p)[i])
  {
    p.slots
  }

  /** Assigning the public `preferredSize` field: nothing else changes, and
      in particular the storage is not resized until the next `fit`. */
  function SetPreferredSize(p: Pool, n: nat): (q: Pool)
    requires Valid(p)
    ensures Valid(q) && (Cleared(p) ==> Cleared(q))
    ensures q.preferredSize == n
    ensures Stack(q) == Stack(p) && q.slots == p.slots
    ensures q.generation == p.generation && q.inits == p.inits && q.freed == p.freed
  {
    p.(preferredSize := n)
  }

  /** `get()`: pops the top object and nulls its slot; on an empty pool it
      calls `init` and leaves the storage alone. */
  function Get(p: Pool): (t: Taken)
    requires Valid(p)
    ensures Valid(t.pool) && (Cleared(p) ==> Cleared(t.pool))
    ensures t.pool.preferredSize == p.preferredSize
    ensures t.pool.generation == p.generation && t.pool.freed == p.freed
    // Non-empty: a pop, and no `init` call.
    ensures p.count > 0 ==>
      && t.obj == Stack(p)[p.count - 1]
      && Stack(t.pool) == Stack(p)[..p.count - 1]
      && t.pool.count == p.count - 1
      && t.pool.inits == p.inits
    ensures p.count > 0 ==>
      && |t.pool.slots| == |p.slots|
      && t.pool.slots[p.count - 1] == None
      && forall i :: 0 <= i < |p.slots| && i != p.count - 1 ==> t.pool.slots[i] == p.slots[i]
    // Empty: the next id from `init` (so unlike any it returned before),
    // storage and count untouched.
    ensures p.count == 0 ==>
      && t.obj == p.inits
      && t.pool.inits == p.inits + 1
      && t.pool.slots == p.slots && t.pool.count == 0
  {
    if p.count != 0 then
      var top := p.count - 1;
      Taken(p.(slots := p.slots[top := None], count := top), p.slots[top].value)
    else
      Taken(p.(inits := p.inits + 1), p.inits)
  }

  /** `put(object)`: writes the object at index `count`, growing the array
      by one when `count` is its length, and bumps `count`. */
  function Put(p: Pool, x: Obj): (q: Pool)
    requires Valid(p)
    ensures Valid(q) && (Cleared(p) ==> Cleared(q))
    ensures Stack(q) == Stack(p) + [x]
    ensures q.count == p.count + 1
    ensures |q.slots| == if p.count < |p.slots| then |p.slots| else p.count + 1
    ensures forall i :: 0 <= i < |p.slots| && i != p.count ==> q.slots[i] == p.slots[i]
    ensures q.preferredSize == p.preferredSize && q.generation == p.generation
    ensures q.inits == p.inits && q.freed == p.freed
  {
    var slots := if p.count < |p.slots| then p.slots[p.count := Some(x)] else p.slots + [Some(x)];
    p.(slots := slots, count := p.count + 1)
  }

  /** The release loop of `fit`: calls `free` on `src[i]`, `src[i+1]`, ...,
      `src[end-1]` in that order, appending each to the log. */
  function Release(src: seq<Option<Obj>>, i: nat, end: nat, log: seq<Obj>): (r: seq<Obj>)
    requires i <= end <= |src|
    requires forall k :: i <= k < end ==> src[k].Some?
    ensures r == log + Values(src[i..end])
    decreases end - i
  {
    if i == end then log else Release(src, i + 1, end, log + [src[i].value])
  }

  /** `fit()`: when more than `preferredSize` objects are available, moves the
      first `preferredSize` of them into a fresh array and frees the rest in
      ascending index order; otherwise does nothing at all. */
  function Fit(p: Pool): (q: Pool)
    requires Valid(p)
    ensures Valid(q) && Cleared(q) == (Cleared(p) || p.count > p.preferredSize)
    ensures q.count == if p.count <= p.preferredSize then p.count else p.preferredSize
    ensures q.preferredSize == p.preferredSize && q.inits == p.inits
    ensures p.count <= p.preferredSize ==> q == p
    ensures p.count > p.preferredSize ==>
      && Stack(q) == Stack(p)[..p.preferredSize]
      && q.freed == p.freed + Stack(p)[p.preferredSize..]
      && |q.slots| == p.preferredSize
      && q.generation == p.generation + 1
  {
    if p.count > p.preferredSize then
      var kept := p.slots[..p.preferredSize];
      var log := Release(p.slots, p.preferredSize, p.count, p.freed);
      Pool(kept, p.preferredSize, p.preferredSize, p.generation + 1, p.inits, log)
    else
      p
  }
}
